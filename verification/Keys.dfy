/** The value-based identity of flags and hints: the strings by which the
    reconciler matches what is wanted with what the server holds. */
module Keys {
  import opened Wrappers

  const NUL: char := '\0'
  const DEFAULT_FLAG_TYPE := "static"
  const MAX_INT := 0x7fff_ffff_ffff_ffff
  const MIN_INT := -0x8000_0000_0000_0000

  predicate NulFree(s: string) {
    NUL !in s
  }

  function FlagTypeOrDefault(t: string): string {
    if t == "" then DEFAULT_FLAG_TYPE else t
  }

  function Deref(s: Option<string>): string {
    match s
    case None => ""
    case Some(v) => v
  }

  function FlagKey(content: string, typ: string, data: string): string {
    content + [NUL] + FlagTypeOrDefault(typ) + [NUL] + data
  }

  function HintKey(content: string, title: Option<string>, cost: int): string {
    content + [NUL] + Deref(title) + [NUL] + Itoa(cost)
  }

  // ---------- decimal rendering: strconv.Itoa and strconv.Atoi ----------

  predicate IsDigit(c: char) {
    '0' <= c <= '9'
  }

  function Digits(n: nat): (s: string)
    ensures s != [] && forall i :: 0 <= i < |s| ==> IsDigit(s[i])
  {
    var last := ['0' + (n % 10) as char];
    if n < 10 then last else Digits(n / 10) + last
  }

  function Itoa(n: int): string {
    if n < 0 then ['-'] + Digits(-n) else Digits(n)
  }

  function ParseDigits(s: string): Option<int> {
    if s == [] then None
    else
      var init, c := s[..|s| - 1], s[|s| - 1];
      if !IsDigit(c) then None
      else if init == [] then Some((c - '0') as nat)
      else match ParseDigits(init)
        case None => None
        case Some(v) => Some(10 * v + (c - '0') as nat)
  }

  function ParseInt(s: string): Option<int> {
    if s != [] && s[0] in ['-', '+'] then
      match ParseDigits(s[1..])
      case None => None
      case Some(v) => Some(if s[0] == '-' then -v else v)
    else
      match ParseDigits(s)
      case None => None
      case Some(v) => Some(v)
  }

  /** Atoi also rejects what does not fit a 64-bit int. */
  function Atoi(s: string): Option<int> {
    match ParseInt(s)
    case None => None
    case Some(n) => if MIN_INT <= n <= MAX_INT then Some(n) else None
  }

  lemma {:induction false} ParseDigitsInvertsDigits(n: nat)
    ensures ParseDigits(Digits(n)) == Some(n)
  {
    if n >= 10 {
      ParseDigitsInvertsDigits(n / 10);
      assert Digits(n)[..|Digits(n)| - 1] == Digits(n / 10);
    }
  }

  lemma {:induction false} ParseIntInvertsItoa(n: int)
    ensures ParseInt(Itoa(n)) == Some(n)
  {
    hide Digits, ParseDigits;
    if n < 0 {
      ParseDigitsInvertsDigits(-n);
      assert Itoa(n)[1..] == Digits(-n);
    } else {
      ParseDigitsInvertsDigits(n);
      assert IsDigit(Digits(n)[0]);
    }
  }

  /** What Create writes as the external name, Observe and Update read back, for
      every identifier that fits the source's int. */
  lemma {:induction false} AtoiInvertsItoa(n: int)
    ensures Atoi(Itoa(n)) == if MIN_INT <= n <= MAX_INT then Some(n) else None
  {
    ParseIntInvertsItoa(n);
  }

  // ---------- what a numeral is, and what it stands for ----------

  /** A numeral without its sign. */
  function Unsigned(s: string): string {
    if s != [] && (s[0] == '-' || s[0] == '+') then s[1..] else s
  }

  /** At most one sign, then at least one decimal digit, and nothing else. */
  predicate IsNumeral(s: string) {
    Unsigned(s) != [] && forall i :: 0 <= i < |Unsigned(s)| ==> '0' <= Unsigned(s)[i] <= '9'
  }

  function Power10(n: nat): nat {
    if n == 0 then 1 else 10 * Power10(n - 1)
  }

  /** The sum of the digits, each with the power of ten of its place. */
  function PlaceValue(d: string): int {
    if d == [] then 0 else (d[0] as int - '0' as int) * Power10(|d| - 1) + PlaceValue(d[1..])
  }

  function NumeralValue(s: string): int {
    if s != [] && s[0] == '-' then -PlaceValue(s[1..]) else PlaceValue(Unsigned(s))
  }

  lemma {:induction false} TimesTen(x: int, y: int)
    ensures x * (10 * y) == 10 * (x * y)
  {
  }

  lemma {:induction false} PlaceValueLast(d: string)
    requires d != []
    ensures PlaceValue(d) == 10 * PlaceValue(d[..|d| - 1]) + (d[|d| - 1] as int - '0' as int)
  {
    if |d| > 1 {
      var init := d[..|d| - 1];
      PlaceValueLast(d[1..]);
      assert d[1..][..|d| - 2] == init[1..];
      TimesTen(d[0] as int - '0' as int, Power10(|d| - 2));
    }
  }

  lemma {:induction false} ParsesDigits(d: string)
    ensures ParseDigits(d) ==
            if d != [] && forall i :: 0 <= i < |d| ==> '0' <= d[i] <= '9' then Some(PlaceValue(d)) else None
  {
    if d != [] {
      var init, last := d[..|d| - 1], d[|d| - 1];
      assert forall i :: 0 <= i < |init| ==> init[i] == d[i];
      ParsesDigits(init);
      PlaceValueLast(d);
    }
  }

  /** Atoi reads exactly the numerals whose value fits 64 bits, and reads their value. */
  lemma {:induction false} AtoiReadsNumerals(s: string)
    ensures Atoi(s) ==
            if IsNumeral(s) && -0x8000_0000_0000_0000 <= NumeralValue(s) <= 0x7fff_ffff_ffff_ffff
            then Some(NumeralValue(s)) else None
  {
    hide ParseDigits, PlaceValue;
    ParsesDigits(Unsigned(s));
  }

  lemma {:induction false} OtherCharacter(s: string, i: nat)
    requires i < |s| && !('0' <= s[i] <= '9') && (i > 0 || (s[i] != '-' && s[i] != '+'))
    ensures !IsNumeral(s)
  {
    var u := Unsigned(s);
    assert u == s || (i > 0 && u[i - 1] == s[i]);
  }

  lemma {:induction false} DigitsLead(n: nat)
    ensures Digits(n)[0] == '0' ==> n == 0 && Digits(n) == "0"
  {
    if n >= 10 {
      DigitsLead(n / 10);
    }
  }

  /** Itoa writes a numeral of the value, with no plus sign and no leading zero. */
  lemma {:induction false} ItoaIsCanonical(n: int)
    ensures IsNumeral(Itoa(n)) && NumeralValue(Itoa(n)) == n
    ensures Itoa(n)[0] != '+' && (Itoa(n)[0] == '-' <==> n < 0)
    ensures Unsigned(Itoa(n))[0] == '0' ==> Itoa(n) == "0"
  {
    hide Digits, ParseDigits, PlaceValue;
    var d := Digits(if n < 0 then -n else n);
    assert IsDigit(d[0]);
    assert Unsigned(Itoa(n)) == d;
    assert forall i :: 0 <= i < |d| ==> IsDigit(d[i]);
    ParseDigitsInvertsDigits(if n < 0 then -n else n);
    ParsesDigits(d);
    DigitsLead(if n < 0 then -n else n);
    assert n < 0 ==> Itoa(n)[1..] == d;
  }

  lemma {:induction false} ItoaNulFree(n: int)
    ensures NulFree(Itoa(n))
  {
  }

  // ---------- keys identify values ----------

  /** The last separator is found from the right: nothing behind it contains it. */
  lemma {:induction false} SplitAtLast(a: string, b: string, a': string, b': string)
    requires NulFree(b) && NulFree(b')
    requires a + [NUL] + b == a' + [NUL] + b'
    ensures a == a' && b == b'
  {
    var s, s' := a + [NUL] + b, a' + [NUL] + b';
    assert s[|a|] == NUL && s'[|a'|] == NUL;
    assert a == s[..|a|] && a' == s'[..|a|];
    assert b == s[|a| + 1..] && b' == s'[|a| + 1..];
  }

  /** Hint keys are equal exactly for hints of equal value, whatever the contents,
      as long as titles hold no NUL. A nil and an empty title are one value. */
  lemma {:induction false} HintKeyIdentifiesValue(c: string, t: Option<string>, n: int, c': string,
      t': Option<string>, n': int)
    requires (t.Some? ==> '\0' !in t.value) && (t'.Some? ==> '\0' !in t'.value)
    ensures HintKey(c, t, n) == HintKey(c', t', n')
       <==> c == c' && n == n' && (t == t' || (t in {None, Some("")} && t' in {None, Some("")}))
  {
    if HintKey(c, t, n) == HintKey(c', t', n') {
      ItoaNulFree(n);
      ItoaNulFree(n');
      SplitAtLast(c + [NUL] + Deref(t), Itoa(n), c' + [NUL] + Deref(t'), Itoa(n'));
      SplitAtLast(c, Deref(t), c', Deref(t'));
      ParseIntInvertsItoa(n);
      ParseIntInvertsItoa(n');
    }
  }

  /** Flag keys are equal exactly for flags of equal value, as long as types and data
      hold no NUL. An empty type and the type static are one value. */
  lemma {:induction false} FlagKeyIdentifiesValue(c: string, t: string, d: string, c': string, t': string, d': string)
    requires '\0' !in t && '\0' !in t' && '\0' !in d && '\0' !in d'
    ensures FlagKey(c, t, d) == FlagKey(c', t', d')
       <==> c == c' && d == d' && (t == t' || (t in {"", "static"} && t' in {"", "static"}))
  {
    if FlagKey(c, t, d) == FlagKey(c', t', d') {
      SplitAtLast(c + [NUL] + FlagTypeOrDefault(t), d, c' + [NUL] + FlagTypeOrDefault(t'), d');
      SplitAtLast(c, FlagTypeOrDefault(t), c', FlagTypeOrDefault(t'));
    }
  }

  /** Titles without NUL are needed for that: a NUL inside a title makes two different
      hints share one key. */
  lemma {:induction false} NulInTitleCollides()
    ensures HintKey("a", Some("b" + [NUL]), 1) == HintKey("a" + [NUL] + "b", None, 1)
  {
    assert "a" + [NUL] + ("b" + [NUL]) + [NUL] == ("a" + [NUL] + "b") + [NUL] + "" + [NUL];
  }
}
