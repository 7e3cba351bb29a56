/** The library's overlapping copy and its number parser. A C string is a sequence without NUL; reading
    at its length yields the terminating NUL. */
module Strings {

  function At(s: string, i: nat): char {
    if i < |s| then s[i] else '\0'
  }

  predicate CString(s: string) {
    forall i | 0 <= i < |s| :: s[i] != '\0'
  }

  /** The destination's indices from `lo` to `hi` are copied, and nothing else has changed. */
  ghost predicate Moved(was: seq<int>, now: seq<int>, dest: nat, src: nat, lo: nat, hi: nat) {
    && |now| == |was| && lo <= hi <= |was| && dest <= lo + src && hi + src <= dest + |was|
    && (forall k {:trigger now[k]} | lo <= k < hi :: now[k] == was[k - dest + src])
    && (forall k {:trigger now[k]} | 0 <= k < |was| && !(lo <= k < hi) :: now[k] == was[k])
  }

  lemma MovedUp(was: seq<int>, now: seq<int>, dest: nat, src: nat, lo: nat, d: nat, s: nat)
    requires Moved(was, now, dest, src, lo, d) && d < |was| && s < |was| && s == d - dest + src && dest <= src
    ensures Moved(was, now[d := now[s]], dest, src, lo, d + 1)
  {
    assert now[s] == was[s];
  }

  lemma MovedDown(was: seq<int>, now: seq<int>, dest: nat, src: nat, hi: nat, d: nat, s: nat)
    requires Moved(was, now, dest, src, d + 1, hi) && s == d - dest + src && src < dest
    ensures Moved(was, now[d := now[s]], dest, src, d, hi)
  {
    assert now[s] == was[s];
  }

  lemma MovedAll(was: seq<int>, now: seq<int>, dest: nat, src: nat, n: nat)
    requires dest + n <= |was| && src + n <= |was| && Moved(was, now, dest, src, dest, dest + n)
    ensures now[dest..dest + n] == was[src..src + n]
    ensures now[..dest] == was[..dest] && now[dest + n..] == was[dest + n..]
  {
    var copy, original := now[dest..dest + n], was[src..src + n];
    forall i | 0 <= i < n
      ensures copy[i] == original[i]
    {
      assert now[dest + i] == was[src + i];
    }
  }

  /** Copies a[src..src + n] to a[dest..dest + n]; the regions may overlap. */
  method Memmove(a: array<int>, dest: nat, src: nat, n: nat)
    requires dest + n <= a.Length && src + n <= a.Length
    modifies a
    ensures a[dest..dest + n] == old(a[src..src + n])
    ensures a[..dest] == old(a[..dest]) && a[dest + n..] == old(a[dest + n..])
  {
    ghost var was := a[..];
    var d, s, left := dest, src, n;
    assert Moved(was, a[..], dest, src, dest, dest) && Moved(was, a[..], dest, src, dest + n, dest + n);
    hide Moved;
    if d <= s {
      while left > 0
        invariant 0 <= left <= n && d == dest + n - left && s == src + n - left
        invariant Moved(was, a[..], dest, src, dest, d)
      {
        MovedUp(was, a[..], dest, src, dest, d, s);
        a[d] := a[s];
        d, s, left := d + 1, s + 1, left - 1;
      }
    } else {
      d, s := d + n, s + n;
      while left > 0
        invariant 0 <= left <= n && d == dest + left && s == src + left
        invariant Moved(was, a[..], dest, src, d, dest + n)
      {
        d, s, left := d - 1, s - 1, left - 1;
        MovedDown(was, a[..], dest, src, dest + n, d, s);
        a[d] := a[s];
      }
    }
    MovedAll(was, a[..], dest, src, n);
  }

  // ---------- numbers in text ----------

  predicate IsDigit(c: char) {
    '0' <= c <= '9'
  }

  function DigitOf(c: char): int {
    c as int - '0' as int
  }

  /** Where the run of digits starting at `i` ends. */
  function DigitsEnd(s: string, i: nat): (j: nat)
    requires i <= |s|
    ensures i <= j <= |s|
    ensures forall k | i <= k < j :: IsDigit(s[k])
    ensures j < |s| ==> !IsDigit(s[j])
    decreases |s| - i
  {
    if i < |s| && IsDigit(s[i]) then DigitsEnd(s, i + 1) else i
  }

  /** The value of a run of digits. */
  function Value(s: string): int {
    if s == "" then 0 else 10 * Value(s[..|s| - 1]) + DigitOf(s[|s| - 1])
  }

  lemma ValueEmpty(s: string, d: nat)
    requires d <= |s|
    ensures Value(s[d..d]) == 0
  {
  }

  lemma ValueStep(s: string, d: nat, i: nat)
    requires d <= i < |s|
    ensures Value(s[d..i + 1]) == 10 * Value(s[d..i]) + DigitOf(s[i])
  {
    assert s[d..i + 1][..i - d] == s[d..i];
  }

  function Blanks(s: string, i: nat): (j: nat)
    requires i <= |s|
    ensures i <= j <= |s|
    ensures forall k | i <= k < j :: s[k] == ' ' || s[k] == '\t'
    ensures j < |s| ==> s[j] != ' ' && s[j] != '\t'
    decreases |s| - i
  {
    if i < |s| && (s[i] == ' ' || s[i] == '\t') then Blanks(s, i + 1) else i
  }

  /** What a string denotes: blanks, an optional sign, and the longest run of digits. */
  function Denotes(s: string): int {
    var b := Blanks(s, 0);
    var signed := At(s, b) == '-' || At(s, b) == '+';
    var d := if signed then b + 1 else b;
    var v := Value(s[d..DigitsEnd(s, d)]);
    if At(s, b) == '-' then -v else v
  }

  method Atol(ptr: string) returns (r: int)
    requires CString(ptr)
    ensures r == Denotes(ptr)
  {
    hide Value;
    var s := 0;
    while At(ptr, s) == ' ' || At(ptr, s) == '\t'
      invariant s <= |ptr| && Blanks(ptr, 0) == Blanks(ptr, s)
      decreases |ptr| - s
    {
      s := s + 1;
    }
    ghost var b := s;
    var neg := false;
    if At(ptr, s) == '-' {
      neg := true;
      s := s + 1;
    } else if At(ptr, s) == '+' {
      s := s + 1;
    }
    assert b == Blanks(ptr, 0) && s == if At(ptr, b) == '-' || At(ptr, b) == '+' then b + 1 else b;
    hide Blanks;
    var acc := 0;
    ghost var d := s;
    ValueEmpty(ptr, d);
    while At(ptr, s) != '\0'
      invariant d <= s <= |ptr| && DigitsEnd(ptr, d) == DigitsEnd(ptr, s)
      invariant acc == Value(ptr[d..s])
      decreases |ptr| - s
    {
      var c := At(ptr, s);
      if c < '0' || c > '9' {
        break;
      }
      ValueStep(ptr, d, s);
      acc := acc * 10 + DigitOf(c);
      s := s + 1;
    }
    assert DigitsEnd(ptr, s) == s;
    r := if neg then -acc else acc;
  }
}
