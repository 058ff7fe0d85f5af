/** Decimal text and token splitting, as the C++ standard streams read and write them. */
module Text {
  import opened Wrappers

  predicate IsDigit(c: char) {
    '0' <= c <= '9'
  }

  function DigitValue(c: char): nat
    requires IsDigit(c)
  {
    c as int - '0' as int
  }

  function DigitChar(d: nat): char
    requires d < 10
  {
    ('0' as int + d) as char
  }

  predicate AllDigits(s: string) {
    forall i :: 0 <= i < |s| ==> IsDigit(s[i])
  }

  /** A natural number as it is printed: no leading zeros. */
  function Show(n: nat): (s: string)
    ensures s != "" && AllDigits(s)
  {
    if n < 10 then [DigitChar(n)] else Show(n / 10) + [DigitChar(n % 10)]
  }

  /** The number that a string of digits denotes. */
  function Value(s: string): nat
    requires AllDigits(s)
  {
    if s == "" then 0 else Value(s[..|s| - 1]) * 10 + DigitValue(s[|s| - 1])
  }

  lemma {:induction false} ShowValue(n: nat)
    ensures Value(Show(n)) == n
  {
    if n >= 10 {
      ShowValue(n / 10);
      assert Show(n)[..|Show(n)| - 1] == Show(n / 10);
    } else {
      assert Show(n)[..0] == "";
    }
  }

  /** How many digits a string starts with. */
  function Leading(s: string): (n: nat)
    ensures n <= |s| && AllDigits(s[..n])
    ensures n < |s| ==> !IsDigit(s[n])
  {
    if s == "" || !IsDigit(s[0]) then 0 else 1 + Leading(s[1..])
  }

  lemma {:induction false} LeadingOf(s: string, rest: string)
    requires AllDigits(s) && (rest == "" || !IsDigit(rest[0]))
    ensures Leading(s + rest) == |s| && (s + rest)[..|s|] == s
  {
    if s != "" {
      assert (s + rest)[1..] == s[1..] + rest;
      LeadingOf(s[1..], rest);
    } else {
      assert s + rest == rest;
    }
  }

  /** The tokens that repeated `getline` with a delimiter delivers: nothing for the empty text, and no
      empty token after a final delimiter. */
  function Split(s: string, delim: char): seq<string> {
    if s == "" then []
    else
      var i := Find(s, delim);
      if i == |s| then [s] else [s[..i]] + Split(s[i + 1..], delim)
  }

  function Find(s: string, c: char): (i: nat)
    ensures i <= |s| && (i < |s| ==> s[i] == c)
    ensures forall j :: 0 <= j < i ==> s[j] != c
  {
    if s == "" || s[0] == c then 0 else 1 + Find(s[1..], c)
  }

  lemma {:induction false} SplitFirst(token: string, delim: char, rest: string)
    requires delim !in token
    ensures Split(token + [delim] + rest, delim) == [token] + Split(rest, delim)
    ensures token != "" ==> Split(token, delim) == [token]
  {
    var s := token + [delim] + rest;
    assert s[|token|] == delim;
    assert Find(s, delim) == |token|;
    assert s[..|token|] == token && s[|token| + 1..] == rest;
  }

  method SplitText(s: string, delim: char) returns (tokens: seq<string>)
    ensures tokens == Split(s, delim)
  {
    tokens := [];
    var rest := s;
    while rest != ""
      invariant tokens + Split(rest, delim) == Split(s, delim)
      decreases |rest|
    {
      var i := Find(rest, delim);
      if i == |rest| {
        tokens := tokens + [rest];
        rest := "";
      } else {
        tokens := tokens + [rest[..i]];
        rest := rest[i + 1..];
      }
    }
  }

  const INT_MAX: int := 0x7FFF_FFFF

  predicate IsBlank(c: char) {
    c == ' ' || c == '\t' || c == '\n' || c == '\r' || c == '\U{0B}' || c == '\U{0C}'
  }

  function SkipBlanks(s: string): string {
    if s != "" && IsBlank(s[0]) then SkipBlanks(s[1..]) else s
  }

  /** What `stream >> int` stores, after leading blanks: an optional sign and the leading digits, clamped
      to the width of an int, or 0 when no digits follow. `None` when there is nothing at all, which
      leaves the variable as it was. */
  function ReadInt(text: string): Option<int> {
    var s := SkipBlanks(text);
    if s == "" then None
    else if s[0] == '-' then Some(-Clamp(s[1..], INT_MAX + 1))
    else if s[0] == '+' then Some(Clamp(s[1..], INT_MAX))
    else Some(Clamp(s, INT_MAX))
  }

  function Clamp(s: string, limit: int): int {
    var v := Value(s[..Leading(s)]);
    if v > limit then limit else v
  }

  lemma ReadShown(n: nat)
    requires n <= INT_MAX
    ensures ReadInt(Show(n)) == Some(n)
  {
    LeadingOf(Show(n), "");
    assert Show(n) + "" == Show(n);
    ShowValue(n);
    assert IsDigit(Show(n)[0]);
  }

  // ---------------------------------------------------------------------------
  // Digit by digit
  // ---------------------------------------------------------------------------

  /** The digits are the ten characters that everybody expects. */
  lemma DigitsAreDecimal(d: nat)
    requires d < 10
    ensures DigitChar(d) == "0123456789"[d] && DigitValue("0123456789"[d]) == d
  {
    var digits := "0123456789";
    assert digits[0] == '0' && digits[1] == '1' && digits[2] == '2' && digits[3] == '3' && digits[4] == '4';
    assert digits[5] == '5' && digits[6] == '6' && digits[7] == '7' && digits[8] == '8' && digits[9] == '9';
  }

  /** A printed number, from its last digit to its first, which is not 0. */
  lemma {:induction false} ShownByDigits(n: nat)
    ensures Show(n) == if n < 10 then ["0123456789"[n]] else Show(n / 10) + ["0123456789"[n % 10]]
    ensures n > 0 ==> Show(n)[0] != '0'
  {
    DigitsAreDecimal(n % 10);
    if n >= 10 {
      ShownByDigits(n / 10);
      assert Show(n)[0] == Show(n / 10)[0];
    }
  }

  lemma ClampShown(n: nat, limit: int)
    ensures Clamp(Show(n), limit) == if n > limit then limit else n
  {
    LeadingOf(Show(n), "");
    assert Show(n) + "" == Show(n);
    ShowValue(n);
  }

  /** Numbers beyond the width of an int are cut off at it, and signs are understood. */
  lemma ReadSigned(n: nat)
    ensures ReadInt(Show(n)) == Some(if n > 2147483647 then 2147483647 else n)
    ensures ReadInt("+" + Show(n)) == Some(if n > 2147483647 then 2147483647 else n)
    ensures ReadInt("-" + Show(n)) == Some(0 - if n > 2147483648 then 2147483648 else n)
  {
    var s := Show(n);
    ClampShown(n, INT_MAX);
    ClampShown(n, INT_MAX + 1);
    assert IsDigit(s[0]);
    assert SkipBlanks(s) == s;
    assert ("+" + s)[0] == '+' && ("+" + s)[1..] == s && SkipBlanks("+" + s) == "+" + s;
    assert ("-" + s)[0] == '-' && ("-" + s)[1..] == s && SkipBlanks("-" + s) == "-" + s;
  }

  /** Leading blanks are skipped, and nothing is read from nothing. */
  lemma ReadBlanks(c: char, text: string)
    requires c in " \t\n\r\U{0B}\U{0C}"
    ensures ReadInt([c] + text) == ReadInt(text) && ReadInt("") == None
  {
    assert ([c] + text)[1..] == text;
  }

  // ---------------------------------------------------------------------------
  // Tokens
  // ---------------------------------------------------------------------------

  /** The tokens, each with a delimiter behind it. */
  function Delimited(tokens: seq<string>, delim: char): string {
    if tokens == [] then "" else tokens[0] + [delim] + Delimited(tokens[1..], delim)
  }

  /** The tokens are without delimiters and, with the delimiters put back, make up the text; a final
      delimiter makes no token. */
  lemma {:induction false} SplitExactly(s: string, delim: char)
    ensures forall t :: t in Split(s, delim) ==> delim !in t
    ensures Delimited(Split(s, delim), delim) ==
      if s == "" || s[|s| - 1] == delim then s else s + [delim]
    decreases |s|
  {
    if s != "" {
      var i := Find(s, delim);
      if i < |s| {
        var rest := s[i + 1..];
        SplitExactly(rest, delim);
        assert s == s[..i] + [delim] + rest;
        assert Split(s, delim)[1..] == Split(rest, delim);
        assert rest != "" ==> s[|s| - 1] == rest[|rest| - 1];
      } else {
        assert Split(s, delim) == [s] && [s][1..] == [];
      }
    }
  }
}
