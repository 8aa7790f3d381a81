/**
  The few std::string operations the SURF parser relies on, stated over `string`
  (a `seq<char>`): `find` of one character and `substr`, with positions and
  counts as 64-bit unsigned `size_t` values.
*/
module Text {

  /** 2^64: `size_t` arithmetic is arithmetic modulo this number. */
  const SIZE_T_LIMIT: int := 0x1_0000_0000_0000_0000

  /** `std::string::npos`, the largest `size_t`. */
  const NPOS: int := SIZE_T_LIMIT - 1

  type SizeT = x: int | 0 <= x < SIZE_T_LIMIT

  /** Conversion of a mathematical integer to `size_t`: unsigned wrap-around. */
  function ToSizeT(x: int): (r: SizeT)
    ensures 0 <= x < SIZE_T_LIMIT ==> r == x
    ensures -SIZE_T_LIMIT <= x < 0 ==> r == x + SIZE_T_LIMIT
    ensures x == SIZE_T_LIMIT ==> r == 0
  {
    x % SIZE_T_LIMIT
  }

  /**
    `s.find(c)`: the index of the first occurrence of `c` in `s`, or `npos`.
    Every std::string is shorter than `npos` (its `max_size` is smaller).
  */
  function Find(s: string, c: char): (r: SizeT)
    requires |s| < NPOS
    ensures r == NPOS <==> c !in s
    ensures r != NPOS ==> r < |s| && s[r] == c && c !in s[..r]
  {
    if |s| == 0 then NPOS
    else if s[0] == c then 0
    else
      var i := Find(s[1..], c);
      if i == NPOS then NPOS
      else
        assert s[..i + 1] == [s[0]] + s[1..][..i];
        i + 1
  }

  /** The first-occurrence index is the only index that `Find` can report. */
  lemma FindFirst(s: string, c: char, i: nat)
    requires |s| < NPOS
    requires i < |s| && s[i] == c && c !in s[..i]
    ensures Find(s, c) == i
  {
    assert s[i] in s;
  }

  /**
    The start position `pos + 1` of the remainder after a `find`, computed in
    `size_t`: when `find` reported `npos` the sum wraps around to 0.
  */
  function StartAfter(pos: SizeT): (r: SizeT)
    ensures pos == NPOS ==> r == 0
    ensures pos < NPOS ==> r == pos + 1
  {
    ToSizeT(pos + 1)
  }

  /**
    `s.substr(pos, count)`: `pos` past the end would throw std::out_of_range, so
    every call site must prove `pos <= |s|`; a `count` running past the end is
    clamped to the end of the string.
  */
  function Substr(s: string, pos: SizeT, count: SizeT): (r: string)
    requires pos <= |s|
    ensures |r| <= count && |r| <= |s| - pos && r == s[pos..pos + |r|]
    ensures count >= |s| - pos ==> r == s[pos..]
    ensures count < |s| - pos ==> r == s[pos..pos + count]
  {
    if count <= |s| - pos then s[pos..pos + count] else s[pos..]
  }
}
