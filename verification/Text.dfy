/** Strings as Go's strings package treats them, on ASCII white space. */
module Text {

  /** The white space the workflow rewriter skips. */
  predicate IsSpace(c: char) {
    c == ' ' || c == '\t' || c == '\r' || c == '\n'
  }

  /** White space as strings.TrimSpace cuts it, ASCII only. */
  predicate IsGoSpace(c: char) {
    IsSpace(c) || c == '\U{0B}' || c == '\U{0C}'
  }

  predicate Blank(z: string) {
    forall i :: 0 <= i < |z| ==> IsGoSpace(z[i])
  }

  function GoSpaceLen(t: string): (n: nat)
    ensures n <= |t| && Blank(t[..n])
    ensures n < |t| ==> !IsGoSpace(t[n])
  {
    if t == [] || !IsGoSpace(t[0]) then 0 else 1 + GoSpaceLen(t[1..])
  }

  function GoTrimmedLen(t: string): (n: nat)
    ensures n <= |t| && Blank(t[n..])
    ensures n > 0 ==> !IsGoSpace(t[n - 1])
  {
    if t == [] || !IsGoSpace(t[|t| - 1]) then |t| else GoTrimmedLen(t[..|t| - 1])
  }

  /** strings.TrimSpace. */
  function TrimSpace(t: string): string {
    if GoSpaceLen(t) >= GoTrimmedLen(t) then "" else t[GoSpaceLen(t)..GoTrimmedLen(t)]
  }

  predicate Contains(t: string, needle: string) {
    exists i :: 0 <= i <= |t| && needle <= t[i..]
  }

  predicate HasPrefix(s: string, prefix: string) {
    prefix <= s
  }

  // Decimal numbers.

  /** A number written in decimal. */
  function Decimal(n: nat): string {
    if n < 10 then [('0' as int + n) as char] else Decimal(n / 10) + [('0' as int + n % 10) as char]
  }

  /** The number that decimal digits at the end of a string write. */
  function Number(s: string): nat {
    if s == "" || !('0' <= s[|s| - 1] <= '9') then 0 else 10 * Number(s[..|s| - 1]) + (s[|s| - 1] as int - '0' as int)
  }

  lemma {:induction false} NumberRead(n: nat)
    ensures Number(Decimal(n)) == n && Decimal(n) != ""
    ensures forall i :: 0 <= i < |Decimal(n)| ==> '0' <= Decimal(n)[i] <= '9'
  {
    var last := ('0' as int + n % 10) as char;
    if n < 10 {
      assert [last][..0] == "";
    } else {
      NumberRead(n / 10);
      assert (Decimal(n / 10) + [last])[..|Decimal(n / 10)|] == Decimal(n / 10);
    }
  }
}
