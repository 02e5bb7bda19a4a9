/**
 * The pieces of Go's standard library and of the BSON driver that the bot's logic depends on:
 * `strings.TrimSpace`, `strings.ToLower`, `strings.Split(s, " ")`, `strings.CutPrefix`,
 * `strconv.Atoi`, `strconv.FormatInt`/`fmt.Sprint` on integers, Go's `<` on strings and
 * `primitive.ObjectIDFromHex`. Strings are sequences of Unicode code points.
 */
module GoLib {
  import opened Wrappers

  // ---------------------------------------------------------------------------------------------
  // strings.TrimSpace

  /** unicode.IsSpace: the Latin-1 spaces and the code points with the White_Space property. */
  predicate IsSpace(c: char) {
    var n := c as int;
    n == 0x20 || 0x09 <= n <= 0x0D || n == 0x85 || n == 0xA0 || n == 0x1680
    || 0x2000 <= n <= 0x200A || n == 0x2028 || n == 0x2029 || n == 0x202F
    || n == 0x205F || n == 0x3000
  }

  /** Every character of `s` in [lo, hi) is white space. */
  predicate SpaceBetween(s: string, lo: int, hi: int) {
    forall k :: lo <= k < hi && 0 <= k < |s| ==> IsSpace(s[k])
  }

  /** The forward scan of strings.TrimSpace: the first index from `i` on that is not white space. */
  function SkipLeft(s: string, i: nat): (j: nat)
    requires i <= |s|
    ensures i <= j <= |s| && (j == |s| || !IsSpace(s[j]))
    ensures SpaceBetween(s, i, j)
    decreases |s| - i
  {
    if i < |s| && IsSpace(s[i]) then SkipLeft(s, i + 1) else i
  }

  /** The backward scan of strings.TrimSpace: the end of s[lo..hi] once its trailing white space
      is dropped. */
  function SkipRight(s: string, lo: nat, hi: nat): (j: nat)
    requires lo <= hi <= |s|
    ensures lo <= j <= hi && (j == lo || !IsSpace(s[j - 1]))
    ensures SpaceBetween(s, j, hi)
    decreases hi - lo
  {
    if lo < hi && IsSpace(s[hi - 1]) then SkipRight(s, lo, hi - 1) else hi
  }

  /** strings.TrimSpace: drops the leading and trailing white space and nothing else. */
  function TrimSpace(s: string): (r: string)
    ensures |r| == 0 || (!IsSpace(r[0]) && !IsSpace(r[|r| - 1]))
    ensures var i := SkipLeft(s, 0);
      i + |r| <= |s| && r == s[i..i + |r|] && SpaceBetween(s, 0, i) && SpaceBetween(s, i + |r|, |s|)
    ensures |s| > 0 && !IsSpace(s[0]) && !IsSpace(s[|s| - 1]) ==> r == s
  {
    var start := SkipLeft(s, 0);
    var stop := SkipRight(s, start, |s|);
    assert stop == start || !IsSpace(s[start]);
    s[start..stop]
  }

  // ---------------------------------------------------------------------------------------------
  // strings.ToLower

  /** Upper-case letters of Basic Latin and of the Cyrillic block U+0400..U+042F. */
  predicate IsUpper(c: char) {
    'A' <= c <= 'Z' || 0x400 <= c as int <= 0x42F
  }

  /** unicode.ToLower on the letters IsUpper names: A-Z, А-Я (+0x20) and Ѐ-Џ (+0x50). */
  function LowerChar(c: char): (r: char)
    ensures !IsUpper(r)
    ensures !IsUpper(c) ==> r == c
  {
    if 'A' <= c <= 'Z' then (c as int + 32) as char
    else if 0x410 <= c as int <= 0x42F then (c as int + 32) as char
    else if 0x400 <= c as int <= 0x40F then (c as int + 80) as char
    else c
  }

  function ToLower(s: string): (r: string)
    ensures |r| == |s|
    ensures forall i :: 0 <= i < |s| ==> r[i] == LowerChar(s[i])
  {
    seq(|s|, i requires 0 <= i < |s| => LowerChar(s[i]))
  }

  /** A lowered string never starts with an upper-case letter, so it never equals a name that does. */
  lemma LoweredNeverCapitalised(s: string, name: string, i: int)
    requires 0 <= i < |name| && IsUpper(name[i])
    ensures ToLower(s) != name
  {
    if |s| == |name| {
      assert ToLower(s)[i] == LowerChar(s[i]);
    }
  }

  lemma ToLowerIdempotent(s: string)
    ensures ToLower(ToLower(s)) == ToLower(s)
  {
    assert forall i :: 0 <= i < |s| ==> ToLower(ToLower(s))[i] == ToLower(s)[i];
  }

  // ---------------------------------------------------------------------------------------------
  // strings.Split(s, " ") and strings.CutPrefix

  /** strings.Split(s, " "): the pieces between single spaces; "" gives [""]. */
  function Split(s: string): (parts: seq<string>)
    ensures |parts| >= 1
    ensures forall i :: 0 <= i < |parts| ==> ' ' !in parts[i]
    decreases |s|
  {
    if s == [] then [""]
    else
      var rest := Split(s[1..]);
      if s[0] == ' ' then [""] + rest
      else [[s[0]] + rest[0]] + rest[1..]
  }

  /** strings.Join(parts, " "). */
  function Join(parts: seq<string>): string
    decreases |parts|
  {
    if parts == [] then ""
    else if |parts| == 1 then parts[0]
    else parts[0] + " " + Join(parts[1..])
  }

  /** Splitting loses nothing: joining the pieces with single spaces gives the input back. */
  lemma {:induction false} JoinSplit(s: string)
    ensures Join(Split(s)) == s
    decreases |s|
  {
    if s != [] {
      var rest := Split(s[1..]);
      JoinSplit(s[1..]);
      if s[0] == ' ' {
        assert Split(s) == [""] + rest;
        assert ([""] + rest)[1..] == rest;
      } else {
        var parts := [[s[0]] + rest[0]] + rest[1..];
        assert Split(s) == parts;
        if |rest| == 1 {
          assert Join(rest) == rest[0];
        } else {
          assert parts[1..] == rest[1..];
          assert Join(rest) == rest[0] + " " + Join(rest[1..]);
        }
      }
    }
  }

  /** A space-free prefix is glued to the first piece and leaves the other pieces alone. */
  lemma {:induction false} SplitSpaceFreePrefix(p: string, s: string)
    requires ' ' !in p
    ensures Split(p + s) == [p + Split(s)[0]] + Split(s)[1..]
    decreases |p|
  {
    if p != [] {
      assert (p + s)[0] == p[0] && (p + s)[1..] == p[1..] + s;
      SplitSpaceFreePrefix(p[1..], s);
      var rest := Split(p[1..] + s);
      assert rest[0] == p[1..] + Split(s)[0] && rest[1..] == Split(s)[1..];
      assert Split(p + s) == [[p[0]] + rest[0]] + rest[1..];
      assert [p[0]] + p[1..] == p;
      assert [p[0]] + rest[0] == p + Split(s)[0];
    } else {
      assert p + s == s && p + Split(s)[0] == Split(s)[0];
      assert Split(s) == [Split(s)[0]] + Split(s)[1..];
    }
  }

  /** strings.CutPrefix, keeping only the remainder. */
  function CutPrefix(s: string, prefix: string): (r: string)
    ensures prefix <= s ==> s == prefix + r
    ensures !(prefix <= s) ==> r == s
  {
    if prefix <= s then s[|prefix|..] else s
  }

  // ---------------------------------------------------------------------------------------------
  // Decimal integers: strconv.FormatInt / fmt.Sprint and strconv.Atoi

  const MaxInt64: int := 0x7fff_ffff_ffff_ffff
  const MinInt64: int := -0x8000_0000_0000_0000

  predicate IsDigit(c: char) {
    '0' <= c <= '9'
  }

  predicate AllDigits(s: string) {
    forall i :: 0 <= i < |s| ==> IsDigit(s[i])
  }

  function DigitChar(d: int): (c: char)
    requires 0 <= d < 10
    ensures IsDigit(c) && c as int - '0' as int == d
  {
    (48 + d) as char
  }

  /** The decimal digits of n, most significant first, without leading zeros. */
  function NatToString(n: nat): (s: string)
    ensures |s| > 0 && AllDigits(s)
    decreases n
  {
    if n < 10 then [DigitChar(n)] else NatToString(n / 10) + [DigitChar(n % 10)]
  }

  /** strconv.FormatInt(n, 10), which is also what fmt.Sprint prints for an int. */
  function Itoa(n: int): string {
    if n < 0 then "-" + NatToString(-n) else NatToString(n)
  }

  function DigitsValue(s: string): nat
    requires AllDigits(s)
    decreases |s|
  {
    if s == [] then 0 else DigitsValue(s[..|s| - 1]) * 10 + (s[|s| - 1] as int - '0' as int)
  }

  /** The syntax strconv.Atoi accepts in base 10: an optional sign and at least one digit. */
  predicate IsDecimal(s: string) {
    (|s| > 0 && AllDigits(s))
    || (|s| > 1 && (s[0] == '-' || s[0] == '+') && AllDigits(s[1..]))
  }

  /** The value strconv.ParseInt reports with its range error: the nearest int64. */
  function Clamp(v: int): int {
    if v > MaxInt64 then MaxInt64 else if v < MinInt64 then MinInt64 else v
  }

  /** strconv.Atoi on a 64-bit platform, with its error dropped: 0 for a syntax error, the
      nearest int64 for a range error, the value otherwise. */
  function Atoi(s: string): (n: int)
    ensures MinInt64 <= n <= MaxInt64
    ensures !IsDecimal(s) ==> n == 0
  {
    if !IsDecimal(s) then 0
    else if AllDigits(s) then Clamp(DigitsValue(s))
    else if s[0] == '-' then Clamp(0 - DigitsValue(s[1..]))
    else Clamp(DigitsValue(s[1..]))
  }

  lemma {:induction false} DigitsValueOfNatToString(n: nat)
    ensures DigitsValue(NatToString(n)) == n
    decreases n
  {
    if n >= 10 {
      var s := NatToString(n);
      DigitsValueOfNatToString(n / 10);
      assert s[..|s| - 1] == NatToString(n / 10);
    }
  }

  /** Reading back what FormatInt printed gives the number again, for every int64. */
  lemma AtoiItoa(n: int)
    requires MinInt64 <= n <= MaxInt64
    ensures Atoi(Itoa(n)) == n
  {
    if n < 0 {
      var s := Itoa(n);
      assert s[1..] == NatToString(-n);
      assert !IsDigit(s[0]);
      DigitsValueOfNatToString(-n);
    } else {
      DigitsValueOfNatToString(n);
    }
  }

  // ---------------------------------------------------------------------------------------------
  // Go's `<` on strings: byte-wise on UTF-8, which orders like the code points

  predicate StrLess(a: string, b: string)
    decreases |a|
  {
    if |b| == 0 then false
    else if |a| == 0 then true
    else if a[0] != b[0] then a[0] < b[0]
    else StrLess(a[1..], b[1..])
  }

  lemma {:induction false} StrLessIrreflexive(a: string)
    ensures !StrLess(a, a)
    decreases |a|
  {
    if |a| > 0 {
      StrLessIrreflexive(a[1..]);
    }
  }

  lemma {:induction false} StrLessTotal(a: string, b: string)
    ensures a == b || StrLess(a, b) || StrLess(b, a)
    decreases |a|
  {
    if |a| > 0 && |b| > 0 && a[0] == b[0] {
      StrLessTotal(a[1..], b[1..]);
      if a[1..] == b[1..] {
        assert a == [a[0]] + a[1..] && b == [b[0]] + b[1..];
      }
    }
  }

  lemma {:induction false} StrLessAsymmetric(a: string, b: string)
    ensures !(StrLess(a, b) && StrLess(b, a))
    decreases |a|
  {
    if |a| > 0 && |b| > 0 && a[0] == b[0] {
      StrLessAsymmetric(a[1..], b[1..]);
    }
  }

  lemma {:induction false} StrLessTransitive(a: string, b: string, c: string)
    requires StrLess(a, b) && StrLess(b, c)
    ensures StrLess(a, c)
    decreases |a|
  {
    if |a| > 0 && a[0] == b[0] && b[0] == c[0] {
      StrLessTransitive(a[1..], b[1..], c[1..]);
    }
  }

  // ---------------------------------------------------------------------------------------------
  // primitive.ObjectID

  /** An ObjectID, written as its canonical 24 lower-case hexadecimal digits. */
  datatype ObjectId = ObjectId(hex: string)

  /** The zero ObjectID, the value of an unset `_id`. */
  const ZeroId: ObjectId := ObjectId("000000000000000000000000")

  /** primitive.ObjectID.IsZero. */
  predicate IsZero(id: ObjectId) {
    id == ZeroId
  }

  predicate IsHexDigit(c: char) {
    IsDigit(c) || 'a' <= c <= 'f' || 'A' <= c <= 'F'
  }

  predicate IsHex24(s: string) {
    |s| == 24 && forall i :: 0 <= i < |s| ==> IsHexDigit(s[i])
  }

  /** primitive.ObjectIDFromHex: exactly 24 hexadecimal digits of either case. */
  function ParseObjectId(s: string): (r: Option<ObjectId>)
    ensures r.Some? <==> IsHex24(s)
    ensures r.Some? ==> IsHex24(r.value.hex)
    ensures r.Some? ==> r.value.hex == ToLower(s) && ToLower(r.value.hex) == r.value.hex
  {
    ToLowerIdempotent(s);
    if IsHex24(s) then Some(ObjectId(ToLower(s))) else None
  }

  /** Parsing does not depend on the case of the digits, so lower-casing the text first is harmless. */
  lemma ParseObjectIdIgnoresCase(s: string)
    ensures ParseObjectId(ToLower(s)) == ParseObjectId(s)
  {
    ToLowerIdempotent(s);
    if IsHex24(s) {
      assert IsHex24(ToLower(s));
    } else if |s| == 24 {
      var i :| 0 <= i < |s| && !IsHexDigit(s[i]);
      assert !IsHexDigit(ToLower(s)[i]);
    }
  }

  /** The hex form of a parsed id parses back to the same id. */
  lemma ParseObjectIdRoundTrip(s: string)
    requires ParseObjectId(s).Some?
    ensures ParseObjectId(ParseObjectId(s).value.hex) == ParseObjectId(s)
  {
    ToLowerIdempotent(s);
  }
}
