/** Values shared by every module: optional values, results, and the string
    operations of the runtime (find, lstrip, startswith, decimal rendering). */
module Prelude {

  datatype Option<+T> = None | Some(value: T)

  datatype Result<+T> = Ok(value: T) | Err(error: Error)

  datatype Error = KeyError(name: string) | AssertionError

  predicate IsPrefix(p: string, s: string) {
    |p| <= |s| && s[..|p|] == p
  }

  function Min(a: nat, b: nat): (m: nat)
    ensures m <= a && m <= b && (m == a || m == b)
  {
    if a < b then a else b
  }

  function Max(a: nat, b: nat): (m: nat)
    ensures a <= m && b <= m && (m == a || m == b)
  {
    if a < b then b else a
  }

  predicate Distinct<T(==)>(s: seq<T>) {
    forall i, j :: 0 <= i < j < |s| ==> s[i] != s[j]
  }

  /** `s[:n]` for a possibly too large n. */
  function Take(s: string, n: nat): string {
    s[..Min(n, |s|)]
  }

  /** `s[n:]` for a possibly too large n. */
  function Drop(s: string, n: nat): string {
    s[Min(n, |s|)..]
  }

  predicate OccursAt(s: string, w: string, p: nat) {
    p + |w| <= |s| && s[p..p + |w|] == w
  }

  /** The white space of Python's `str`: what `isspace` and `lstrip` go by. */
  predicate IsSpace(c: char) {
    var n := c as int;
    || 0x09 <= n <= 0x0D || 0x1C <= n <= 0x20 || n == 0x85 || n == 0xA0
    || n == 0x1680 || 0x2000 <= n <= 0x200A || n == 0x2028 || n == 0x2029
    || n == 0x202F || n == 0x205F || n == 0x3000
  }

  const WHITE_SPACE: string :=
    "\t\n\U{0B}\U{0C}\r\U{1C}\U{1D}\U{1E}\U{1F} \U{85}\U{A0}\U{1680}\U{2000}\U{2001}\U{2002}\U{2003}\U{2004}" +
    "\U{2005}\U{2006}\U{2007}\U{2008}\U{2009}\U{200A}\U{2028}\U{2029}\U{202F}\U{205F}\U{3000}"

  /** Character by character, these are the ones. */
  lemma SpacesAreListed(c: char)
    ensures IsSpace(c) <==> c in WHITE_SPACE
  {
    if IsSpace(c) {
      var k := if c <= '\r' then c as int - 0x09
               else if c <= ' ' then c as int - 0x1C + 5
               else if c == '\U{85}' then 10 else if c == '\U{A0}' then 11 else if c == '\U{1680}' then 12
               else if c <= '\U{200A}' then c as int - 0x2000 + 13
               else if c == '\U{2028}' then 24 else if c == '\U{2029}' then 25
               else if c == '\U{202F}' then 26 else if c == '\U{205F}' then 27 else 28;
      assert WHITE_SPACE[k] == c;
    }
  }

  /** Python's lstrip. */
  function Lstrip(s: string): (r: string)
    ensures |r| <= |s|
    ensures r == s <==> (s == "" || !IsSpace(s[0]))
  {
    if s != "" && IsSpace(s[0]) then Lstrip(s[1..]) else s
  }

  /** The longest beginning of white space is cut off, and nothing else. */
  lemma {:induction false} LstripCutsSpaces(s: string)
    ensures Lstrip(s) == s[|s| - |Lstrip(s)|..]
    ensures forall i :: 0 <= i < |s| - |Lstrip(s)| ==> IsSpace(s[i])
    ensures Lstrip(s) == "" || !IsSpace(Lstrip(s)[0])
  {
    if s != "" && IsSpace(s[0]) {
      LstripCutsSpaces(s[1..]);
    }
  }

  function Decimal(n: nat): string
    decreases n
  {
    var digit := ["0123456789"[n % 10]];
    if n < 10 then digit else Decimal(n / 10) + digit
  }

  /** The number that a string of digits stands for. */
  function NumberOf(s: string): int {
    if s == "" then 0 else 10 * NumberOf(s[..|s| - 1]) + (s[|s| - 1] as int - '0' as int)
  }

  /** A number can be read back. */
  lemma {:induction false} DecimalIsReadBack(n: nat)
    ensures Decimal(n) != "" && NumberOf(Decimal(n)) == n
    decreases n
  {
    var s := Decimal(n);
    if n < 10 {
      assert s[..|s| - 1] == "" && s[|s| - 1] as int == '0' as int + n;
    } else {
      DecimalIsReadBack(n / 10);
      assert s[..|s| - 1] == Decimal(n / 10) && s[|s| - 1] as int == '0' as int + n % 10;
    }
  }
}
