/**
 * The profile choice of `harden`: the typed answer goes through Python's `int()` and is
 * checked against the number of profiles found.
 */
module Selection {

  /** CPython's default bound on the number of digits `int()` converts (`sys.int_info.default_max_str_digits`). */
  const MaxStrDigits: nat := 4300

  /** ASCII characters that `int()` skips around the number: space and `\t` to `\r`. */
  predicate IsSpace(c: char) {
    c == ' ' || 9 <= c as int <= 13
  }

  predicate IsDigit(c: char) {
    '0' <= c <= '9'
  }

  /** Drops leading whitespace. */
  function LStrip(s: string): string
    decreases |s|
  {
    if |s| > 0 && IsSpace(s[0]) then LStrip(s[1..]) else s
  }

  /** Drops trailing whitespace. */
  function RStrip(s: string): string
    decreases |s|
  {
    if |s| > 0 && IsSpace(s[|s| - 1]) then RStrip(s[..|s| - 1]) else s
  }

  /** `LStrip` removes exactly the leading whitespace: a suffix of `s` is left, starting with no space. */
  lemma {:induction false} LStripSpec(s: string)
    ensures var r := LStrip(s);
      && |r| <= |s| && r == s[|s| - |r|..]
      && (r == [] || !IsSpace(r[0]))
      && forall i :: 0 <= i < |s| - |r| ==> IsSpace(s[i])
    decreases |s|
  {
    if |s| > 0 && IsSpace(s[0]) {
      LStripSpec(s[1..]);
    }
  }

  /** `RStrip` removes exactly the trailing whitespace: a prefix of `s` is left, ending with no space. */
  lemma {:induction false} RStripSpec(s: string)
    ensures var r := RStrip(s);
      && |r| <= |s| && r == s[..|r|]
      && (r == [] || !IsSpace(r[|r| - 1]))
      && forall i :: |r| <= i < |s| ==> IsSpace(s[i])
    decreases |s|
  {
    if |s| > 0 && IsSpace(s[|s| - 1]) {
      RStripSpec(s[..|s| - 1]);
    }
  }

  /** Digits with single underscores between them: `1_000` is accepted, `_1`, `1_` and `1__0` are not. */
  predicate IsDigitRun(body: string) {
    && body != []
    && IsDigit(body[0])
    && IsDigit(body[|body| - 1])
    && (forall i :: 0 <= i < |body| ==> IsDigit(body[i]) || body[i] == '_')
    && (forall i :: 0 <= i < |body| - 1 ==> body[i] == '_' ==> IsDigit(body[i + 1]))
  }

  /** The digits of a digit run, underscores removed. */
  function DigitsOf(body: string): (ds: string)
    ensures |ds| <= |body|
    decreases |body|
  {
    if body == [] then []
    else (if body[0] == '_' then [] else [body[0]]) + DigitsOf(body[1..])
  }

  /** The number a string of decimal digits denotes. */
  function Value(ds: string): nat
    decreases |ds|
  {
    if ds == [] then 0
    else 10 * Value(ds[..|ds| - 1]) + (ds[|ds| - 1] as int - '0' as int) % 10
  }

  datatype Parsed = Int(value: int) | ValueError

  /**
   * `int(answer)` for ASCII text: surrounding whitespace is skipped, one optional sign, then a
   * digit run of at most `MaxStrDigits` digits; anything else raises `ValueError`.
   */
  function ParseInt(answer: string): (r: Parsed)
    ensures r.Int? ==> exists i :: 0 <= i < |answer| && IsDigit(answer[i])
  {
    DigitNeeded(answer);
    ParseSigned(RStrip(LStrip(answer)))
  }

  /** The stripped text: an optional sign before the digit run. */
  function ParseSigned(t: string): Parsed {
    if t != [] && t[0] == '-' then
      match ParseRun(t[1..])
      case Int(v) => Int(-v)
      case ValueError => ValueError
    else if t != [] && t[0] == '+' then ParseRun(t[1..])
    else ParseRun(t)
  }

  /** The unsigned digit run. */
  function ParseRun(body: string): Parsed {
    if !IsDigitRun(body) then ValueError
    else
      var ds := DigitsOf(body);
      if |ds| > MaxStrDigits then ValueError else Int(Value(ds))
  }

  /** The decimal digits of `n`, without leading zeros. */
  function NatDigits(n: nat): (ds: string)
    ensures ds != [] && forall i :: 0 <= i < |ds| ==> IsDigit(ds[i])
    decreases n
  {
    if n < 10 then [('0' as int + n) as char]
    else NatDigits(n / 10) + [('0' as int + n % 10) as char]
  }

  /** `str(n)` */
  function Decimal(n: int): string {
    if n < 0 then "-" + NatDigits(-n) else NatDigits(n)
  }

  lemma {:induction false} NatDigitsValue(n: nat)
    ensures Value(NatDigits(n)) == n
    decreases n
  {
    if n >= 10 {
      var ds := NatDigits(n);
      assert ds[..|ds| - 1] == NatDigits(n / 10);
      NatDigitsValue(n / 10);
    }
  }

  lemma {:induction false} DigitsOfPlain(ds: string)
    requires forall i :: 0 <= i < |ds| ==> IsDigit(ds[i])
    ensures DigitsOf(ds) == ds
    decreases |ds|
  {
    if ds != [] {
      DigitsOfPlain(ds[1..]);
      assert ds == [ds[0]] + ds[1..];
    }
  }

  lemma StripPlain(t: string)
    requires t != [] && !IsSpace(t[0]) && !IsSpace(t[|t| - 1])
    ensures RStrip(LStrip(t)) == t
  {
  }

  /** A plain run of digits is read as its value. */
  lemma ParseRunDigits(ds: string)
    requires ds != [] && |ds| <= MaxStrDigits && forall i :: 0 <= i < |ds| ==> IsDigit(ds[i])
    ensures ParseRun(ds) == Int(Value(ds))
  {
    DigitsOfPlain(ds);
    assert IsDigitRun(ds);
  }

  /** `int()` of a run of digits without sign or whitespace. */
  lemma ParsePositive(ds: string)
    requires ds != [] && |ds| <= MaxStrDigits && forall i :: 0 <= i < |ds| ==> IsDigit(ds[i])
    ensures ParseInt(ds) == Int(Value(ds))
  {
    ParseRunDigits(ds);
    StripPlain(ds);
    assert ds[0] != '-' && ds[0] != '+';
  }

  /** `int()` of a minus sign followed by a run of digits. */
  lemma ParseNegative(ds: string)
    requires ds != [] && |ds| <= MaxStrDigits && forall i :: 0 <= i < |ds| ==> IsDigit(ds[i])
    ensures ParseInt("-" + ds) == Int(-(Value(ds) as int))
  {
    var v := Value(ds);
    ParseRunDigits(ds);
    NegativeSign(ds, v);
    NegativeStrip(ds);
  }

  lemma NegativeStrip(ds: string)
    requires ds != [] && IsDigit(ds[|ds| - 1])
    ensures ParseInt("-" + ds) == ParseSigned("-" + ds)
  {
    var answer := "-" + ds;
    assert answer[|answer| - 1] == ds[|ds| - 1];
    StripPlain(answer);
  }

  lemma NegativeSign(ds: string, v: int)
    requires ParseRun(ds) == Int(v)
    ensures ParseSigned("-" + ds) == Int(-v)
  {
    var answer := "-" + ds;
    assert answer[0] == '-' && answer[1..] == ds;
  }

  /** `int(str(n)) == n` for every integer whose decimal form is within the digit bound. */
  lemma ParseDecimal(n: int)
    requires |NatDigits(if n < 0 then -n else n)| <= MaxStrDigits
    ensures ParseInt(Decimal(n)) == Int(n)
  {
    var m: nat := if n < 0 then -n else n;
    NatDigitsValue(m);
    if n < 0 {
      ParseNegative(NatDigits(m));
    } else {
      ParsePositive(NatDigits(m));
    }
  }

  /** Only an answer holding an ASCII digit can be read as an integer. */
  lemma DigitNeeded(answer: string)
    ensures ParseSigned(RStrip(LStrip(answer))).Int? ==> exists i :: 0 <= i < |answer| && IsDigit(answer[i])
  {
    if forall i :: 0 <= i < |answer| ==> !IsDigit(answer[i]) {
      var l := LStrip(answer);
      var t := RStrip(l);
      LStripSpec(answer);
      RStripSpec(l);
      var body := if t != [] && (t[0] == '-' || t[0] == '+') then t[1..] else t;
      assert ParseRun(body) == ValueError ==> ParseSigned(t) == ValueError;
      if body != [] {
        var off := if body == t then 0 else 1;
        assert body[0] == t[off] == l[off] == answer[|answer| - |l| + off];
      }
    }
  }

  /** An answer in which no character is an ASCII digit is never an integer (`ValueError`). */
  lemma NoDigitNoInt(answer: string)
    requires forall i :: 0 <= i < |answer| ==> !IsDigit(answer[i])
    ensures ParseInt(answer) == ValueError
  {
  }

  /** A separator that is not whitespace to `int()`, such as `\x1c`, makes the answer invalid. */
  lemma FileSeparatorNotSkipped()
    ensures ParseInt("\U{1c}1") == ValueError
  {
    var t := "\U{1c}1";
    assert !IsSpace(t[0]) && !IsSpace(t[1]);
    assert RStrip(LStrip(t)) == t;
    assert !IsDigit(t[0]);
  }

  /** Numbers beyond CPython's digit bound are refused even though they are integers. */
  lemma TooManyDigits(ds: string)
    requires |ds| > MaxStrDigits && forall i :: 0 <= i < |ds| ==> IsDigit(ds[i])
    ensures ParseInt(ds) == ValueError
  {
    DigitsOfPlain(ds);
    StripPlain(ds);
  }

  /** How the choice among several profiles ends. */
  datatype Choice =
    | Chosen(profile: string)   // `profile = ff_profiles[profile_choice]`
    | IncorrectInput            // `ValueError`: "[-] Incorrect input.." and exit status 1
    | WrongChoice               // out of range: "Wrong choice." and `harden` returns
    | ProfileUnbound            // at most one profile: `profile` is never assigned

  /**
   * Lines 221-238 of `harden` as written: only with more than one profile is the answer read,
   * parsed and range-checked; otherwise `profile` stays unassigned.
   */
  function SelectProfile(profiles: seq<string>, answer: string): (r: Choice)
    ensures r.Chosen? ==> r.profile in profiles
    ensures r.Chosen? || r.IncorrectInput? || r.WrongChoice? ==> |profiles| > 1
  {
    if |profiles| > 1 then
      match ParseInt(answer)
      case ValueError => IncorrectInput
      case Int(n) => if 0 <= n < |profiles| then Chosen(profiles[n]) else WrongChoice
    else ProfileUnbound
  }

  /** Typing the index `i` of one of several profiles selects exactly that profile. */
  lemma SelectByIndex(profiles: seq<string>, i: nat)
    requires 1 < |profiles| && i < |profiles| && |NatDigits(i)| <= MaxStrDigits
    ensures SelectProfile(profiles, Decimal(i)) == Chosen(profiles[i])
  {
    ParseDecimal(i);
  }

  /** Any integer outside `0..|profiles|-1`, negative ones included, is a wrong choice, not an error. */
  lemma SelectOutOfRange(profiles: seq<string>, n: int)
    requires 1 < |profiles| && (n < 0 || n >= |profiles|)
    requires |NatDigits(if n < 0 then -n else n)| <= MaxStrDigits
    ensures SelectProfile(profiles, Decimal(n)) == WrongChoice
  {
    ParseDecimal(n);
  }

  /**
   * With several profiles, the run ends with "Incorrect input.." exactly when `int()` raises
   * `ValueError` on the answer: `1a`, `1.5` and `1 2` included.
   */
  lemma SelectIncorrectIff(profiles: seq<string>, answer: string)
    requires 1 < |profiles|
    ensures SelectProfile(profiles, answer) == IncorrectInput <==> ParseInt(answer) == ValueError
  {
  }

  /** In particular, an answer without digits ends the run with exit status 1 when there are several profiles. */
  lemma SelectNonInteger(profiles: seq<string>, answer: string)
    requires 1 < |profiles|
    requires forall i :: 0 <= i < |answer| ==> !IsDigit(answer[i])
    ensures SelectProfile(profiles, answer) == IncorrectInput
  {
    NoDigitNoInt(answer);
  }

  /** With exactly one profile nothing is selected, whatever the answer. */
  lemma SingleProfileUnbound(profile: string, answer: string)
    ensures SelectProfile([profile], answer) == ProfileUnbound
  {
  }

  /** The selection as evidently intended: a single profile is taken without asking. */
  function SelectProfileFixed(profiles: seq<string>, answer: string): (r: Choice)
    ensures r.Chosen? ==> r.profile in profiles
    ensures |profiles| == 1 ==> r == Chosen(profiles[0])
    ensures |profiles| > 1 ==> r == SelectProfile(profiles, answer)
    ensures r.ProfileUnbound? <==> profiles == []
  {
    if |profiles| == 1 then Chosen(profiles[0]) else SelectProfile(profiles, answer)
  }
}
