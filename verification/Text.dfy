/** String helpers: ASCII case folding for `icontains`, substring search, and `str.strip()`. */
module Text {

  predicate IsAsciiUpper(c: char) {
    'A' <= c <= 'Z'
  }

  /** ASCII lower-casing: an upper-case letter becomes the same letter in lower case. */
  function LowerChar(c: char): (r: char)
    ensures !IsAsciiUpper(r)
    ensures IsAsciiUpper(c) ==> 'a' <= r <= 'z' && r as int - 'a' as int == c as int - 'A' as int
    ensures !IsAsciiUpper(c) ==> r == c
  {
    if IsAsciiUpper(c) then (c as int - 'A' as int + 'a' as int) as char else c
  }

  function Lower(s: string): (r: string)
    ensures |r| == |s|
    ensures forall i :: 0 <= i < |s| ==> r[i] == LowerChar(s[i])
  {
    if |s| == 0 then [] else [LowerChar(s[0])] + Lower(s[1..])
  }

  /** `t` occurs in `s` starting at position `i`. */
  ghost predicate OccursAt(t: string, s: string, i: int) {
    0 <= i && i + |t| <= |s| && s[i..i + |t|] == t
  }

  /** Left-to-right search for `t` in `s`, as SQL `LIKE '%t%'` performs it. */
  function Contains(s: string, t: string): bool
    decreases |s|
  {
    if |t| > |s| then false
    else if s[..|t|] == t then true
    else Contains(s[1..], t)
  }

  /** The search finds `t` exactly when `t` occurs somewhere in `s`. */
  lemma {:induction false} ContainsIsOccurrence(s: string, t: string)
    ensures Contains(s, t) <==> exists i :: OccursAt(t, s, i)
    decreases |s|
  {
    if |t| > |s| {
      assert forall i :: !OccursAt(t, s, i);
    } else if s[..|t|] == t {
      assert OccursAt(t, s, 0);
    } else {
      ContainsIsOccurrence(s[1..], t);
      if Contains(s[1..], t) {
        var i :| OccursAt(t, s[1..], i);
        assert s[1..][i..i + |t|] == s[i + 1..i + 1 + |t|];
        assert OccursAt(t, s, i + 1);
      } else {
        forall i | OccursAt(t, s, i)
          ensures false
        {
          assert i != 0;
          assert s[1..][i - 1..i - 1 + |t|] == s[i..i + |t|];
          assert OccursAt(t, s[1..], i - 1);
        }
      }
    }
  }

  /** Django's `icontains`: case-insensitive containment, folding ASCII letters only. */
  function IContains(s: string, t: string): bool {
    Contains(Lower(s), Lower(t))
  }

  /** `icontains` holds exactly when the folded needle occurs in the folded text. */
  lemma {:induction false} IContainsMeaning(s: string, t: string)
    ensures IContains(s, t) ==> exists i :: OccursAt(Lower(t), Lower(s), i)
    ensures (exists i :: OccursAt(Lower(t), Lower(s), i)) ==> IContains(s, t)
  {
    ContainsIsOccurrence(Lower(s), Lower(t));
  }

  /** The empty needle occurs in every text. */
  lemma IContainsEmpty(s: string)
    ensures IContains(s, "")
  {

  }

  /** The search for "conf" matches "Annual Conference". */
  lemma IContainsExampleMatch(s: string, t: string)
    requires s == "Annual Conference" && t == "conf"
    ensures IContains(s, t)
  {
    var ls, lt := Lower(s), Lower(t);
    assert s[7] == 'C' && s[8] == 'o' && s[9] == 'n' && s[10] == 'f';
    assert t[0] == 'c' && t[1] == 'o' && t[2] == 'n' && t[3] == 'f';
    assert ls[7] == lt[0] && ls[8] == lt[1] && ls[9] == lt[2] && ls[10] == lt[3];
    assert |lt| == 4;
    assert ls[7..11] == lt;
    assert OccursAt(lt, ls, 7);
    IContainsMeaning(s, t);
  }

  /** The search for "conf" does not match "Workshop". */
  lemma IContainsExampleMiss(s: string, t: string)
    requires s == "Workshop" && t == "conf"
    ensures !IContains(s, t)
  {
    var ls, lt := Lower(s), Lower(t);
    IContainsMeaning(s, t);
    assert lt[0] == 'c';
    assert forall i :: 0 <= i < |s| ==> ls[i] != 'c';
  }

  /** Python's `str.isspace()` for one character. */
  predicate IsSpace(c: char) {
    var n := c as int;
    (0x09 <= n <= 0x0D) || (0x1C <= n <= 0x20) || n == 0x85 || n == 0xA0 || n == 0x1680
    || (0x2000 <= n <= 0x200A) || n == 0x2028 || n == 0x2029 || n == 0x202F || n == 0x205F || n == 0x3000
  }

  /** Length of the longest all-whitespace prefix of `s`. */
  function LeadingSpaces(s: string): (n: nat)
    ensures n <= |s|
    ensures forall k :: 0 <= k < n ==> IsSpace(s[k])
    ensures n == |s| || !IsSpace(s[n])
  {
    if |s| == 0 || !IsSpace(s[0]) then 0 else 1 + LeadingSpaces(s[1..])
  }

  /** Length of the longest all-whitespace suffix of `s`. */
  function TrailingSpaces(s: string): (n: nat)
    ensures n <= |s|
    ensures forall k :: |s| - n <= k < |s| ==> IsSpace(s[k])
    ensures n == |s| || !IsSpace(s[|s| - n - 1])
  {
    if |s| == 0 || !IsSpace(s[|s| - 1]) then 0 else 1 + TrailingSpaces(s[..|s| - 1])
  }

  predicate AllSpace(s: string) {
    forall k :: 0 <= k < |s| ==> IsSpace(s[k])
  }

  /** `s.strip()`: `s` with leading and trailing whitespace removed. */
  function Strip(s: string): (r: string)
    ensures |r| == 0 || (!IsSpace(r[0]) && !IsSpace(r[|r| - 1]))
    ensures exists i :: OccursAt(r, s, i) && AllSpace(s[..i]) && AllSpace(s[i + |r|..])
  {
    var a := LeadingSpaces(s);
    var rest := s[a..];
    var b := TrailingSpaces(rest);
    var r := rest[..|rest| - b];
    assert s[a..a + |r|] == r;
    assert OccursAt(r, s, a);
    assert AllSpace(s[..a]) by {
      forall k | 0 <= k < a ensures IsSpace(s[..a][k]) {
        assert s[..a][k] == s[k];
      }
    }
    var tail := s[a + |r|..];
    assert AllSpace(tail) by {
      forall k | 0 <= k < |tail| ensures IsSpace(tail[k]) {
        assert tail[k] == rest[|rest| - b + k];
      }
    }
    r
  }

  /** Stripping twice is stripping once. */
  lemma StripIdempotent(s: string)
    ensures Strip(Strip(s)) == Strip(s)
  {

  }

  /**
   * The text holds U+0000, which Django's `ProhibitNullCharactersValidator`,
   * run by every `CharField` on a non-empty value, rejects.
   */
  predicate HasNull(s: string) {
    '\0' in s
  }
}
