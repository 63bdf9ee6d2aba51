/** The recogniser for enhanced status codes in `milter-client-context.c` and the reply it
    guards, against section 2 of RFC 3463:

      status-code = class "." subject "." detail
      class       = "2" / "4" / "5"
      subject     = 1*3digit
      detail      = 1*3digit

    A C string is the sequence of its characters without the terminating NUL; reading one
    past the end reads the NUL. */
module StatusCode {
  import opened Options

  const NUL := '\0'

  predicate Terminated(s: string) {
    forall i | 0 <= i < |s| :: NUL < s[i] < 256 as char
  }

  type CString = s: string | Terminated(s)

  function At(s: string, i: nat): char {
    if i < |s| then s[i] else NUL
  }

  // ---------- the grammar ----------

  predicate Digit(c: char) {
    '0' <= c <= '9'
  }

  predicate Digits(s: string) {
    forall i | 0 <= i < |s| :: Digit(s[i])
  }

  /** 1*3digit */
  predicate Component(s: string) {
    1 <= |s| <= 3 && Digits(s)
  }

  predicate Class(s: string) {
    s == "2" || s == "4" || s == "5"
  }

  ghost predicate StatusCodeOf(s: string, class_: string, subject: string, detail: string) {
    && Class(class_)
    && Component(subject)
    && Component(detail)
    && s == class_ + "." + subject + "." + detail
  }

  ghost predicate Grammatical(s: string) {
    exists class_, subject, detail :: StatusCodeOf(s, class_, subject, detail)
  }

  function DigitValue(c: char): nat
    requires Digit(c)
  {
    c as int - '0' as int
  }

  function Value(digits: string): nat
    requires Digits(digits)
  {
    if digits == [] then 0 else Value(digits[..|digits| - 1]) * 10 + DigitValue(digits[|digits| - 1])
  }

  lemma ValueSnoc(digits: string, c: char)
    requires Digits(digits) && Digit(c)
    ensures Value(digits + [c]) == Value(digits) * 10 + DigitValue(c)
  {
    assert (digits + [c])[..|digits|] == digits;
  }

  // ---------- the parser ----------

  /** The digits from `start` on are those before `k`. */
  predicate EndsAt(s: string, start: nat, k: nat) {
    start <= k <= |s| && Digits(s[start..k]) && !Digit(At(s, k))
  }

  lemma EndUnique(s: string, start: nat, j: nat, k: nat)
    requires EndsAt(s, start, j) && EndsAt(s, start, k)
    ensures j == k
  {}

  /** `atoi`: the value of the digits up to the first character that is none. Leading blanks and
      signs, which `atoi` also accepts, never reach it here. */
  method Atoi(s: string, start: nat) returns (value: nat)
    requires start <= |s|
    ensures forall k: nat | EndsAt(s, start, k) :: value == Value(s[start..k])
  {
    var i := start;
    value := 0;
    while Digit(At(s, i))
      invariant start <= i <= |s| && Digits(s[start..i]) && value == Value(s[start..i])
      decreases |s| - i
    {
      value := value * 10 + DigitValue(s[i]);
      ValueSnoc(s[start..i], s[i]);
      assert s[start..i + 1] == s[start..i] + [s[i]];
      i := i + 1;
    }
    forall k: nat | EndsAt(s, start, k) ensures k == i {
      EndUnique(s, start, i, k);
    }
  }

  /** `extended_code_parse_class`: the position behind the class and its dot. At the end of the
      string the position is the end and the class is left alone. */
  method ParseClass(s: CString, class0: nat) returns (next: Option<nat>, class_: nat)
    ensures next.Some? ==> next.value <= |s|
    ensures next.Some? && next.value < |s| ==>
      next.value == 2 && Class(s[..1]) && s[1] == '.' && class_ == Value(s[..1])
    ensures next == None || next.value == |s| ==> !(|s| > 2 && Class(s[..1]) && s[1] == '.')
  {
    next, class_ := None, class0;
    var i := 0;
    while At(s, i) != NUL
      invariant i <= |s| && i <= 1 && class_ == class0 && next == None
      invariant i == 1 ==> Class(s[..1])
      decreases |s| - i
    {
      if At(s, i) == '.' {
        if i == 0 {
          return;
        }
        class_ := Atoi(s, 0);
        assert s[0..1] == s[..1];
        return Some(i + 1), class_;
      } else if i >= 1 {
        return;
      } else if !(At(s, i) == '2' || At(s, i) == '4' || At(s, i) == '5') {
        return;
      }
      i := i + 1;
    }
    if i != 0 {
      next := Some(i);
    }
  }

  /** Digits before a dot leave no other place for the dot that ends a component. */
  lemma FirstDot(s: string, start: nat, i: nat)
    requires start + i < |s| && Digits(s[start..start + i])
    ensures forall k | start <= k < start + i :: s[k] != '.'
    ensures !Digit(s[start + i]) || i >= 3 ==> forall k | start + i < k < |s| :: !Component(s[start..k])
  {
    forall k | start <= k < start + i ensures s[k] != '.' {
      assert s[start..start + i][k - start] == s[k];
    }
    if !Digit(s[start + i]) {
      forall k | start + i < k < |s| ensures !Component(s[start..k]) {
        assert s[start..k][i] == s[start + i];
      }
    }
  }

  lemma NoDot(s: string, start: nat)
    requires start <= |s| && Digits(s[start..])
    ensures forall k | start <= k < |s| :: s[k] != '.'
  {
    forall k | start <= k < |s| ensures s[k] != '.' {
      assert s[start..][k - start] == s[k];
    }
  }

  /** `extended_code_parse_subject`: likewise for one to three digits and a dot. */
  method ParseSubject(s: CString, start: nat, subject0: nat) returns (next: Option<nat>, subject: nat)
    requires start < |s|
    ensures next.Some? ==> start < next.value <= |s|
    ensures next.Some? && next.value < |s| ==>
      s[next.value - 1] == '.' && Component(s[start..next.value - 1]) && subject == Value(s[start..next.value - 1])
    ensures next == None || next.value == |s| ==>
      forall k | start <= k < |s| - 1 && s[k] == '.' :: !Component(s[start..k])
  {
    next, subject := None, subject0;
    var i := 0;
    while At(s, start + i) != NUL
      invariant start + i <= |s| && i <= 3 && Digits(s[start..start + i]) && next == None
      decreases |s| - i
    {
      FirstDot(s, start, i);
      if At(s, start + i) == '.' {
        if i == 0 {
          return;
        }
        subject := Atoi(s, start);
        return Some(start + i + 1), subject;
      } else if i >= 3 {
        return;
      } else if !Digit(At(s, start + i)) {
        return;
      }
      assert s[start..start + i + 1] == s[start..start + i] + [s[start + i]];
      i := i + 1;
    }
    assert s[start..start + i] == s[start..];
    NoDot(s, start);
    if i != 0 {
      next := Some(start + i);
    }
  }

  /** `extended_code_parse_detail`. Its out-parameter is never written. */
  method ParseDetail(s: CString, start: nat) returns (next: Option<nat>)
    requires start < |s|
    ensures next.Some? <==> Component(s[start..])
  {
    next := None;
    var i := 0;
    while At(s, start + i) != NUL
      invariant start + i <= |s| && i <= 3 && Digits(s[start..start + i])
      decreases |s| - i
    {
      if i >= 3 {
        return;
      } else if !Digit(At(s, start + i)) {
        assert s[start..][i] == s[start + i];
        return;
      }
      assert s[start..start + i + 1] == s[start..start + i] + [s[start + i]];
      i := i + 1;
    }
    assert s[start..start + i] == s[start..];
    if i != 0 {
      next := Some(start + i);
    }
  }

  /** The second dot, between subject and detail. */
  ghost predicate DotAt(s: string, k: int) {
    2 <= k < |s| - 1 && s[k] == '.' && Component(s[2..k]) && Component(s[k + 1..])
  }

  lemma DotsOf(s: string, class_: string, subject: string, detail: string)
    requires StatusCodeOf(s, class_, subject, detail)
    ensures
      var k := 2 + |subject|;
      && k < |s| - 1
      && s[..1] == class_ && s[1] == '.' && s[2..k] == subject && s[k] == '.' && s[k + 1..] == detail
  {}

  /** Where the dots of a status code are. */
  lemma GrammaticalIff(s: string)
    ensures Grammatical(s) <==>
      |s| > 2 && Class(s[..1]) && s[1] == '.'
      && exists k :: DotAt(s, k)
  {
    if Grammatical(s) {
      var class_, subject, detail :| StatusCodeOf(s, class_, subject, detail);
      DotsOf(s, class_, subject, detail);
      assert DotAt(s, 2 + |subject|);
    }
    if |s| > 2 && Class(s[..1]) && s[1] == '.' {
      forall k | DotAt(s, k)
        ensures Grammatical(s)
      {
        assert s == s[..1] + "." + s[2..k] + "." + s[k + 1..];
        assert StatusCodeOf(s, s[..1], s[2..k], s[k + 1..]);
      }
    }
  }

  /** A status code can be read in one way only. */
  lemma Unambiguous(s: string, class0: string, subject0: string, detail0: string,
                    class1: string, subject1: string, detail1: string)
    requires StatusCodeOf(s, class0, subject0, detail0) && StatusCodeOf(s, class1, subject1, detail1)
    ensures class0 == class1 && subject0 == subject1 && detail0 == detail1
  {
    DotsOf(s, class0, subject0, detail0);
    DotsOf(s, class1, subject1, detail1);
    EndUnique(s, 2, 2 + |subject0|, 2 + |subject1|);
  }

  /** There is at most one. */
  lemma SecondDot(s: string, k: nat)
    requires 2 <= k < |s| && s[k] == '.' && Component(s[2..k])
    ensures forall j | DotAt(s, j) :: j == k
  {
    forall j | DotAt(s, j) ensures j == k {
      EndUnique(s, 2, j, k);
    }
  }

  /** `extended_code_parse` accepts exactly the strings of the grammar. */
  method ParseExtendedCode(s: CString, class0: nat) returns (ok: bool, class_: nat, subject: nat)
    ensures ok <==> Grammatical(s)
    ensures ok ==> forall c, u, d | StatusCodeOf(s, c, u, d) :: class_ == Value(c) && subject == Value(u)
  {
    hide Grammatical, Value;
    GrammaticalIff(s);
    ok, subject := false, 0;
    var dot: Option<nat>;
    dot, class_ := ParseClass(s, class0);
    if dot == None || At(s, dot.value) == NUL {
      return;
    }
    var dot2: Option<nat>;
    dot2, subject := ParseSubject(s, dot.value, subject);
    if dot2 == None || At(s, dot2.value) == NUL {
      return;
    }
    var end := ParseDetail(s, dot2.value);
    ok := end.Some?;
    SecondDot(s, dot2.value - 1);
    assert ok ==> DotAt(s, dot2.value - 1);
    forall c, u, d | StatusCodeOf(s, c, u, d) ensures class_ == Value(c) && subject == Value(u) {
      DotsOf(s, c, u, d);
      EndUnique(s, 2, 2 + |u|, dot2.value - 1);
    }
  }

  // ---------- the reply ----------

  /** A status code of the grammar whose class is the first digit of the reply code. */
  ghost predicate MatchesClass(s: string, code: nat) {
    exists c, u, d :: StatusCodeOf(s, c, u, d) && Value(c) == code / 100
  }

  /** What `milter_client_context_set_reply` lets through. */
  ghost predicate Acceptable(code: nat, extendedCode: Option<string>) {
    400 <= code < 600 && (extendedCode.Some? ==> MatchesClass(extendedCode.value, code))
  }

  // ---------- numbers and their digits ----------

  function DigitOf(n: nat): char
    requires n < 10
  {
    '0' + n as char
  }

  /** The decimal digits of a number. */
  function Decimal(n: nat): (s: string)
    ensures Digits(s) && 1 <= |s|
  {
    if n < 10 then [DigitOf(n)] else Decimal(n / 10) + [DigitOf(n % 10)]
  }

  /** Section 2 of RFC 3463 also wants each number "expressed without leading zero digits". */
  predicate NoLeadingZero(digits: string) {
    |digits| <= 1 || digits[0] != '0'
  }

  /** The number alone gives the digits back if and only if there is no leading zero. */
  lemma {:induction false} DigitsBackIff(digits: string)
    requires digits != [] && Digits(digits)
    ensures Decimal(Value(digits)) == digits <==> NoLeadingZero(digits)
    ensures |Decimal(Value(digits))| <= |digits|
  {
    var most, last := digits[..|digits| - 1], digits[|digits| - 1];
    if most == [] {
      assert digits == [last];
      assert Value(digits) == DigitValue(last);
    } else {
      DigitsBackIff(most);
      assert digits == most + [last];
      assert Value(digits) / 10 == Value(most) && Value(digits) % 10 == DigitValue(last);
      if Value(most) != 0 {
        assert Decimal(Value(digits)) == Decimal(Value(most)) + [last];
      }
    }
  }

  function Render(class_: nat, subject: nat, detail: nat): string {
    Decimal(class_) + "." + Decimal(subject) + "." + Decimal(detail)
  }

  /** Two texts of one status code are accepted, so the numbers do not determine the text: they
      do if and only if neither the subject nor the detail has a leading zero. */
  lemma TextBackIff(s: string, c: string, u: string, d: string)
    requires StatusCodeOf(s, c, u, d)
    ensures Render(Value(c), Value(u), Value(d)) == s <==> NoLeadingZero(u) && NoLeadingZero(d)
  {
    DigitsBackIff(c);
    DigitsBackIff(u);
    DigitsBackIff(d);
    var r := Render(Value(c), Value(u), Value(d));
    assert StatusCodeOf(r, c, Decimal(Value(u)), Decimal(Value(d)));
    if r == s {
      Unambiguous(s, c, u, d, c, Decimal(Value(u)), Decimal(Value(d)));
    }
  }

  /** The grammar, and so the parser, accepts a leading zero. */
  lemma AcceptsLeadingZero()
    ensures Grammatical("5.01.1") && Grammatical("5.1.1")
  {
    assert StatusCodeOf("5.01.1", "5", "01", "1");
    assert StatusCodeOf("5.1.1", "5", "1", "1");
  }
}
