/**
 * String helpers shared by the pages: ASCII case mapping (JavaScript's
 * `toLowerCase`/`toUpperCase` restricted to ASCII), `String.prototype.includes`,
 * `split` on a one-character separator, `join`, and the
 * `charAt(0).toUpperCase() + slice(1)` idiom.
 */
module Text {

  predicate IsUpper(c: char) { 'A' <= c <= 'Z' }

  predicate IsLower(c: char) { 'a' <= c <= 'z' }

  /** ASCII `toLowerCase` of one character. */
  function LowerChar(c: char): (r: char)
    ensures IsUpper(c) ==> IsLower(r) && r as int == c as int + 32
    ensures !IsUpper(c) ==> r == c
    ensures !IsUpper(r)
  {
    if IsUpper(c) then (c as int + 32) as char else c
  }

  /** ASCII `toUpperCase` of one character. */
  function UpperChar(c: char): (r: char)
    ensures IsLower(c) ==> IsUpper(r) && r as int == c as int - 32
    ensures !IsLower(c) ==> r == c
    ensures !IsLower(r)
  {
    if IsLower(c) then (c as int - 32) as char else c
  }

  /** `s.toLowerCase()` on ASCII. */
  function ToLower(s: string): (r: string)
    ensures |r| == |s|
    ensures forall i :: 0 <= i < |s| ==> r[i] == LowerChar(s[i])
  {
    seq(|s|, i requires 0 <= i < |s| => LowerChar(s[i]))
  }

  /** A lower-case letter shows up in `s.toLowerCase()` only if it or its
      upper-case form shows up in s. */
  lemma LowerCaseMembership(s: string, c: char)
    requires IsLower(c)
    ensures c in ToLower(s) <==> c in s || UpperChar(c) in s
  {
    if c in ToLower(s) {
      var i :| 0 <= i < |s| && ToLower(s)[i] == c;
      assert s[i] == c || s[i] == UpperChar(c);
    }
    if c in s {
      var i :| 0 <= i < |s| && s[i] == c;
      assert ToLower(s)[i] == c;
    }
    if UpperChar(c) in s {
      var i :| 0 <= i < |s| && s[i] == UpperChar(c);
      assert ToLower(s)[i] == c;
    }
  }

  /** A character that is no letter survives lower-casing unchanged. */
  lemma NonLetterMembership(s: string, c: char)
    requires !IsUpper(c) && !IsLower(c)
    ensures c in ToLower(s) <==> c in s
  {
    if c in ToLower(s) {
      var i :| 0 <= i < |s| && ToLower(s)[i] == c;
      assert s[i] == c;
    }
    if c in s {
      var i :| 0 <= i < |s| && s[i] == c;
      assert ToLower(s)[i] == c;
    }
  }

  /** The independent meaning of "t occurs in s at position i". */
  ghost predicate OccursAt(s: string, t: string, i: int)
  {
    0 <= i && i + |t| <= |s| && s[i..i + |t|] == t
  }

  /** Character-by-character comparison of t[j..] with s[i + j..]. */
  predicate MatchFrom(s: string, t: string, i: nat, j: nat)
    requires i + |t| <= |s| && j <= |t|
    decreases |t| - j
  {
    j == |t| || (s[i + j] == t[j] && MatchFrom(s, t, i, j + 1))
  }

  /** Whether t occurs in s at some position k >= i, tried left to right. */
  predicate ContainsFrom(s: string, t: string, i: nat)
    decreases |s| - i
  {
    i + |t| <= |s| && (MatchFrom(s, t, i, 0) || ContainsFrom(s, t, i + 1))
  }

  /** `s.includes(t)`; the empty string is included in every string. */
  predicate Contains(s: string, t: string)
    ensures t == [] ==> Contains(s, t)
  {
    ContainsFrom(s, t, 0)
  }

  lemma {:induction false} MatchFromMeaning(s: string, t: string, i: nat, j: nat)
    requires i + |t| <= |s| && j <= |t|
    ensures MatchFrom(s, t, i, j) <==> s[i + j..i + |t|] == t[j..]
    decreases |t| - j
  {
    if j < |t| {
      MatchFromMeaning(s, t, i, j + 1);
      assert s[i + j..i + |t|] == [s[i + j]] + s[i + j + 1..i + |t|];
      assert t[j..] == [t[j]] + t[j + 1..];
    }
  }

  lemma {:induction false} ContainsFromMeaning(s: string, t: string, i: nat)
    ensures ContainsFrom(s, t, i) <==> exists k :: i <= k && OccursAt(s, t, k)
    decreases |s| - i
  {
    if i + |t| <= |s| {
      MatchFromMeaning(s, t, i, 0);
      assert t[0..] == t;
      ContainsFromMeaning(s, t, i + 1);
      if MatchFrom(s, t, i, 0) {
        assert OccursAt(s, t, i);
      }
      if exists k :: i <= k && OccursAt(s, t, k) {
        var k :| i <= k && OccursAt(s, t, k);
        assert k == i || (i + 1 <= k && OccursAt(s, t, k));
      }
    }
  }

  /** The search agrees with the definition: `s.includes(t)` holds exactly
      when t occurs in s at some position. */
  lemma ContainsMeaning(s: string, t: string)
    ensures Contains(s, t) <==> exists k :: OccursAt(s, t, k)
  {
    ContainsFromMeaning(s, t, 0);
  }

  /** A character of t that s lacks rules out every occurrence. */
  lemma MissingCharNotContained(s: string, t: string, c: char)
    requires c in t && c !in s
    ensures !Contains(s, t)
  {
    ContainsMeaning(s, t);
  }

  /** A lower-case letter of t that occurs in s in neither case rules out
      every occurrence of t in `s.toLowerCase()`. */
  lemma LetterRulesOut(s: string, t: string, c: char)
    requires IsLower(c) && c in t && c !in s && UpperChar(c) !in s
    ensures !Contains(ToLower(s), t)
  {
    LowerCaseMembership(s, c);
    MissingCharNotContained(ToLower(s), t, c);
  }

  /** `w.charAt(0).toUpperCase() + w.slice(1)`; `charAt(0)` of "" is "". */
  function Capitalize(w: string): (r: string)
    ensures |r| == |w|
    ensures forall i :: 0 <= i < |w| ==> r[i] == if i == 0 then UpperChar(w[i]) else w[i]
  {
    if w == [] then [] else [UpperChar(w[0])] + w[1..]
  }

  /** Index of the first c in s. */
  function IndexOf(s: string, c: char): (r: nat)
    requires c in s
    ensures r < |s| && s[r] == c && c !in s[..r]
  {
    if s[0] == c then 0 else 1 + IndexOf(s[1..], c)
  }

  /** `ws.join(sep)`. */
  function Join(ws: seq<string>, sep: string): string
  {
    if |ws| == 0 then []
    else if |ws| == 1 then ws[0]
    else ws[0] + sep + Join(ws[1..], sep)
  }

  /** `s.split(sep)` for a one-character separator: at least one piece, no
      piece holds the separator, and joining the pieces back gives s. */
  function Split(s: string, sep: char): (r: seq<string>)
    ensures |r| >= 1
    ensures forall w :: w in r ==> sep !in w
    ensures Join(r, [sep]) == s
    decreases |s|
  {
    if sep !in s then [s]
    else
      var i := IndexOf(s, sep);
      assert s == s[..i] + [sep] + s[i + 1..];
      [s[..i]] + Split(s[i + 1..], sep)
  }

  /** The first element of `s.split(sep)`: everything before the first sep. */
  lemma SplitHead(s: string, sep: char)
    ensures sep !in s ==> Split(s, sep)[0] == s
    ensures sep in s ==> Split(s, sep)[0] == s[..IndexOf(s, sep)]
  {
  }
}
