/** What Python does to strings, and what that leaves of them. */
module Text {
  function EndsWith(s: string, suffix: string): bool {
    |suffix| <= |s| && s[|s| - |suffix|..] == suffix
  }

  lemma {:induction false} EndsWithIs(s: string, suffix: string)
    ensures EndsWith(s, suffix) <==> exists part :: s == part + suffix
  {
    if EndsWith(s, suffix) { assert s == s[..|s| - |suffix|] + suffix; }
  }

  /** The characters that are not invisible, in order. */
  function Visible(s: string, invisible: set<char>): string {
    if s == "" then "" else (if s[0] in invisible then "" else [s[0]]) + Visible(s[1..], invisible)
  }

  /** Each part of a text shows on its own, and of a character all or nothing. */
  lemma {:induction false} VisibleByPart(a: string, b: string, c: char, invisible: set<char>)
    ensures Visible(a + b, invisible) == Visible(a, invisible) + Visible(b, invisible)
    ensures Visible([c], invisible) == if c in invisible then "" else [c]
  {
    assert [c][1..] == "";
    if a == "" {
      assert a + b == b;
    } else {
      assert (a + b)[1..] == a[1..] + b;
      VisibleByPart(a[1..], b, c, invisible);
    }
  }

  lemma {:induction false} VisibleHolds(s: string, invisible: set<char>)
    ensures forall c | c in Visible(s, invisible) :: c in s && c !in invisible
  {
    if s != "" { VisibleHolds(s[1..], invisible); }
  }

  function StripLeft(s: string, space: set<char>): string {
    if s != "" && s[0] in space then StripLeft(s[1..], space) else s
  }

  function StripRight(s: string, space: set<char>): string {
    if s != "" && s[|s| - 1] in space then StripRight(s[..|s| - 1], space) else s
  }

  function Strip(s: string, space: set<char>): string {
    StripRight(StripLeft(s, space), space)
  }

  predicate AllIn(s: string, chars: set<char>) {
    forall c | c in s :: c in chars
  }

  /** `s` is `rest` with white space after it, and `rest` has none at its end. */
  lemma {:induction false} StripRightTakes(s: string, space: set<char>) returns (after: string)
    ensures s == StripRight(s, space) + after && AllIn(after, space)
    ensures StripRight(s, space) != "" ==> StripRight(s, space)[|StripRight(s, space)| - 1] !in space
  {
    if s != "" && s[|s| - 1] in space {
      var before := StripRightTakes(s[..|s| - 1], space);
      after := before + [s[|s| - 1]];
      assert s == s[..|s| - 1] + [s[|s| - 1]];
    } else {
      after := "";
      assert s == s + "";
    }
  }

  lemma {:induction false} StripLeftTakes(s: string, space: set<char>) returns (before: string)
    ensures s == before + StripLeft(s, space) && AllIn(before, space)
    ensures StripLeft(s, space) != "" ==> StripLeft(s, space)[0] !in space
  {
    if s != "" && s[0] in space {
      var rest := StripLeftTakes(s[1..], space);
      before := [s[0]] + rest;
      assert s == [s[0]] + s[1..];
    } else {
      before := "";
      assert s == "" + s;
    }
  }

  /** Stripping leaves what is between the white space at both ends. */
  lemma {:induction false} StripTakes(s: string, space: set<char>) returns (before: string, after: string)
    ensures s == before + Strip(s, space) + after && AllIn(before, space) && AllIn(after, space)
    ensures Strip(s, space) != "" ==> Strip(s, space)[0] !in space && Strip(s, space)[|Strip(s, space)| - 1] !in space
  {
    hide StripLeft, StripRight;
    before := StripLeftTakes(s, space);
    after := StripRightTakes(StripLeft(s, space), space);
  }

  lemma {:induction false} StripRightNothing(s: string, space: set<char>)
    ensures s != "" && s[0] !in space ==> StripRight(s, space) != ""
  {
    var after := StripRightTakes(s, space);
    if s != "" && StripRight(s, space) == "" { assert s[0] in after; }
  }

  lemma {:induction false} StripRightIsPrefix(a: string, b: string, space: set<char>)
    requires a <= b
    ensures StripRight(a, space) <= a && StripRight(a, space) <= StripRight(b, space)
    decreases |a| + |b|
  {
    if a != "" && a[|a| - 1] in space {
      StripRightIsPrefix(a[..|a| - 1], b, space);
    } else if |a| < |b| && b[|b| - 1] in space {
      StripRightIsPrefix(a, b[..|b| - 1], space);
    }
  }
}
