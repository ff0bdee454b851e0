/** The string operations the client relies on: `toLowerCase`, `endsWith`, `includes`,
    and an order on names standing for `localeCompare`. */
module Text {

  /** Lower-cases an ASCII capital letter; every other character is left as it is. */
  function LowerChar(c: char): (r: char)
    ensures 'A' <= c <= 'Z' ==> 'a' <= r <= 'z'
    ensures !('A' <= c <= 'Z') ==> r == c
  {
    if 'A' <= c <= 'Z' then (c as int + 32) as char else c
  }

  /** `s.toLowerCase()` restricted to ASCII letters. */
  function Lower(s: string): (r: string)
    ensures |r| == |s|
    ensures forall i :: 0 <= i < |s| ==> r[i] == LowerChar(s[i])
  {
    if s == [] then [] else [LowerChar(s[0])] + Lower(s[1..])
  }

  /** `s.endsWith(suffix)`. */
  predicate EndsWith(s: string, suffix: string)
  {
    |suffix| <= |s| && s[|s| - |suffix|..] == suffix
  }

  predicate StartsWith(s: string, prefix: string)
  {
    |prefix| <= |s| && s[..|prefix|] == prefix
  }

  /** `sub` occurs in `s` at position `i`. */
  predicate OccursAt(s: string, sub: string, i: int)
  {
    0 <= i && i + |sub| <= |s| && s[i..i + |sub|] == sub
  }

  /** `s.includes(sub)`, by scanning `s` from the left. */
  predicate Includes(s: string, sub: string)
  {
    StartsWith(s, sub) || (s != [] && Includes(s[1..], sub))
  }

  /** The scan finds `sub` exactly when it occurs at some position of `s`. */
  lemma {:induction false} IncludesIffOccurs(s: string, sub: string)
    ensures Includes(s, sub) <==> exists i :: OccursAt(s, sub, i)
  {
    if StartsWith(s, sub) {
      assert OccursAt(s, sub, 0);
    } else if s == [] {
      assert forall i :: !OccursAt(s, sub, i);
    } else {
      IncludesIffOccurs(s[1..], sub);
      if Includes(s[1..], sub) {
        var i :| OccursAt(s[1..], sub, i);
        assert s[i + 1..i + 1 + |sub|] == s[1..][i..i + |sub|];
        assert OccursAt(s, sub, i + 1);
      }
      forall i | OccursAt(s, sub, i) ensures Includes(s[1..], sub) {
        assert i != 0;
        assert s[1..][i - 1..i - 1 + |sub|] == s[i..i + |sub|];
        assert OccursAt(s[1..], sub, i - 1);
      }
    }
  }

  /** Lexicographic order on character codes: the order names are sorted by. */
  predicate NameLe(s: string, t: string)
  {
    s == [] || (t != [] && (s[0] < t[0] || (s[0] == t[0] && NameLe(s[1..], t[1..]))))
  }

  lemma {:induction false} NameLeTotal(s: string, t: string)
    ensures NameLe(s, t) || NameLe(t, s)
  {
    if s != [] && t != [] && s[0] == t[0] {
      NameLeTotal(s[1..], t[1..]);
    }
  }

  lemma {:induction false} NameLeTransitive(s: string, t: string, u: string)
    requires NameLe(s, t) && NameLe(t, u)
    ensures NameLe(s, u)
  {
    if s != [] && t != [] && u != [] && s[0] == t[0] && t[0] == u[0] {
      NameLeTransitive(s[1..], t[1..], u[1..]);
    }
  }
}
