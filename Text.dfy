/** The few java.lang.String operations the library core relies on:
    trim(), toLowerCase(), equalsIgnoreCase() and contains().
    Characters outside ASCII are not case-folded (see README). */
module Text {

  /** The whitespace rule of String.trim(): every code unit up to U+0020. */
  predicate IsTrimmable(c: char) {
    c <= ' '
  }

  /** Character.toLowerCase restricted to ASCII letters. */
  function LowerChar(c: char): (d: char)
    ensures 'A' <= c <= 'Z' ==> d as int == c as int + 32
    ensures !('A' <= c <= 'Z') ==> d == c
    ensures !('A' <= d <= 'Z')
  {
    if 'A' <= c <= 'Z' then (c as int + 32) as char else c
  }

  /** String.toLowerCase: maps every character through LowerChar. */
  function ToLower(s: string): (r: string)
    ensures |r| == |s|
    ensures forall i :: 0 <= i < |s| ==> r[i] == LowerChar(s[i])
  {
    if s == [] then [] else [LowerChar(s[0])] + ToLower(s[1..])
  }

  /** String.equalsIgnoreCase: equal lengths and equal characters up to case. */
  predicate EqualsIgnoreCase(a: string, b: string) {
    |a| == |b| && forall i :: 0 <= i < |a| ==> LowerChar(a[i]) == LowerChar(b[i])
  }

  /** Comparing ignoring case is comparing the lower-cased strings. */
  lemma EqualsIgnoreCaseIsLowerEquality(a: string, b: string)
    ensures EqualsIgnoreCase(a, b) <==> ToLower(a) == ToLower(b)
  {
  }

  /** String.trim, first scan: from index st, skip trimmable characters. */
  function TrimLow(s: string, st: nat): (lo: nat)
    requires st <= |s|
    ensures st <= lo <= |s|
    ensures forall k :: st <= k < lo ==> IsTrimmable(s[k])
    ensures lo < |s| ==> !IsTrimmable(s[lo])
    decreases |s| - st
  {
    if st < |s| && IsTrimmable(s[st]) then TrimLow(s, st + 1) else st
  }

  /** String.trim, second scan: from end len, step back over trimmable
      characters, but not past st. */
  function TrimHigh(s: string, st: nat, len: nat): (hi: nat)
    requires st <= len <= |s|
    ensures st <= hi <= len
    ensures forall k :: hi <= k < len ==> IsTrimmable(s[k])
    ensures hi > st ==> !IsTrimmable(s[hi - 1])
    decreases len
  {
    if st < len && IsTrimmable(s[len - 1]) then TrimHigh(s, st, len - 1) else len
  }

  /** String.trim: the slice of s between the two scans. It neither starts nor
      ends with a trimmable character, and everything cut away is trimmable. */
  function Trim(s: string): (r: string)
    ensures r == [] || (!IsTrimmable(r[0]) && !IsTrimmable(r[|r| - 1]))
    ensures var lo := TrimLow(s, 0);
      lo + |r| <= |s| && r == s[lo..lo + |r|] &&
      (forall k :: 0 <= k < lo ==> IsTrimmable(s[k])) &&
      (forall k :: lo + |r| <= k < |s| ==> IsTrimmable(s[k]))
  {
    var st := TrimLow(s, 0);
    var len := TrimHigh(s, st, |s|);
    s[st..len]
  }

  /** Trimming an already trimmed string is the identity. */
  lemma TrimIdempotent(s: string)
    ensures Trim(Trim(s)) == Trim(s)
  {
  }

  /** t occurs in s starting at index i. */
  predicate OccursAt(s: string, t: string, i: int) {
    0 <= i && i + |t| <= |s| && s[i..i + |t|] == t
  }

  /** String.contains: t occurs somewhere in s. */
  predicate Contains(s: string, t: string) {
    exists i :: 0 <= i <= |s| - |t| && OccursAt(s, t, i)
  }

  /** Every string contains the empty string, as in Java. */
  lemma ContainsEmpty(s: string)
    ensures Contains(s, "")
  {
    assert OccursAt(s, "", 0);
  }

  /** Every string contains itself. */
  lemma ContainsSelf(s: string)
    ensures Contains(s, s)
  {
    assert s[0..|s|] == s;
    assert OccursAt(s, s, 0);
  }

  /** Strings equal ignoring case contain one another ignoring case. */
  lemma EqualsIgnoreCaseContains(a: string, b: string)
    requires EqualsIgnoreCase(a, b)
    ensures Contains(ToLower(a), ToLower(b))
  {
    EqualsIgnoreCaseIsLowerEquality(a, b);
    ContainsSelf(ToLower(a));
  }
}
