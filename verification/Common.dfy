/** Small types and string helpers shared by the models. */
module Common {

  datatype Option<+T> = None | Some(value: T)

  datatype Result<+T, +E> = Ok(value: T) | Err(error: E)

  newtype Byte = x: int | 0 <= x < 256

  /** The elements of a sequence are pairwise different. */
  ghost predicate NoDuplicates<T>(s: seq<T>) {
    forall i, j :: 0 <= i < j < |s| ==> s[i] != s[j]
  }

  ghost predicate SameElements<T(!new)>(a: seq<T>, b: seq<T>) {
    forall x :: x in a <==> x in b
  }

  /** Length of one character in UTF-8 (section 3 of RFC 3629). */
  function CharBytes(c: char): nat {
    if c < '\U{80}' then 1
    else if c < '\U{800}' then 2
    else if c < '\U{10000}' then 3
    else 4
  }

  /** Number of UTF-8 bytes of a string, what `len` counts in the original. */
  function ByteLen(s: string): (n: nat)
    ensures |s| <= n <= 4 * |s|
  {
    if s == [] then 0 else CharBytes(s[0]) + ByteLen(s[1..])
  }

  /** `unicode.IsSpace`. */
  predicate IsSpace(c: char) {
    || '\U{09}' <= c <= '\U{0D}' || c == ' ' || c == '\U{85}' || c == '\U{A0}' || c == '\U{1680}'
    || '\U{2000}' <= c <= '\U{200A}' || c == '\U{2028}' || c == '\U{2029}' || c == '\U{202F}'
    || c == '\U{205F}' || c == '\U{3000}'
  }

  function TrimLeft(s: string): (r: string)
    ensures r != [] ==> !IsSpace(r[0])
    ensures |r| <= |s|
  {
    if s != [] && IsSpace(s[0]) then TrimLeft(s[1..]) else s
  }

  function TrimRight(s: string): (r: string)
    ensures r <= s
    ensures r != [] ==> !IsSpace(r[|r| - 1])
  {
    if s != [] && IsSpace(s[|s| - 1]) then TrimRight(s[..|s| - 1]) else s
  }

  /** `strings.TrimSpace`. */
  function TrimSpace(s: string): (r: string)
    ensures r != [] ==> !IsSpace(r[0]) && !IsSpace(r[|r| - 1])
    ensures r == s <==> s == [] || (!IsSpace(s[0]) && !IsSpace(s[|s| - 1]))
  {
    TrimRight(TrimLeft(s))
  }

  /** Only surrounding space is trimmed. */
  lemma TrimSpaceExact(s: string) returns (before: string, after: string)
    ensures s == before + TrimSpace(s) + after
    ensures forall c | c in before + after :: IsSpace(c)
  {
    before := TrimmedLeft(s);
    after := TrimmedRight(TrimLeft(s));
  }

  lemma {:induction false} TrimmedLeft(s: string) returns (before: string)
    ensures s == before + TrimLeft(s) && forall c | c in before :: IsSpace(c)
  {
    before := [];
    if s != [] && IsSpace(s[0]) {
      var rest := TrimmedLeft(s[1..]);
      before := [s[0]] + rest;
    }
  }

  lemma {:induction false} TrimmedRight(s: string) returns (after: string)
    ensures s == TrimRight(s) + after && forall c | c in after :: IsSpace(c)
  {
    after := [];
    if s != [] && IsSpace(s[|s| - 1]) {
      var rest := TrimmedRight(s[..|s| - 1]);
      after := rest + [s[|s| - 1]];
    }
  }

  /** Substring test, `strings.Contains` and SQL's `instr(...) > 0`. */
  predicate Contains(text: string, part: string) {
    exists i :: 0 <= i <= |text| && part <= text[i..]
  }

  lemma HeadIn<T>(s: seq<T>)
    ensures s == [] || s[0] in s
  {
  }

  function Min(a: int, b: int): int {
    if a < b then a else b
  }

  function Max(a: int, b: int): int {
    if a > b then a else b
  }

  function ReverseSeq<T>(s: seq<T>): (r: seq<T>)
    ensures |r| == |s|
    ensures forall i :: 0 <= i < |s| ==> r[i] == s[|s| - 1 - i]
  {
    if s == [] then [] else ReverseSeq(s[1..]) + [s[0]]
  }
}
