/** The few facts about text that the services rely on: blanks, control characters, trimming. */
module Text {

  /** Unicode White_Space, as `strings.TrimSpace` reads it. */
  predicate IsSpace(c: char) {
    var n := c as int;
    || 9 <= n <= 13 || n == 32 || n == 0x85 || n == 0xA0 || n == 0x1680
    || 0x2000 <= n <= 0x200A || n == 0x2028 || n == 0x2029 || n == 0x202F || n == 0x205F || n == 0x3000
  }

  /** `unicode.IsControl`: the category Cc. */
  predicate IsControl(c: char) {
    var n := c as int;
    n < 32 || 127 <= n < 160
  }

  predicate HasControl(s: string) {
    exists c | c in s :: IsControl(c)
  }

  function TrimLeft(s: string): string {
    if s != "" && IsSpace(s[0]) then TrimLeft(s[1..]) else s
  }

  function TrimRight(s: string): string {
    if s != "" && IsSpace(s[|s| - 1]) then TrimRight(s[..|s| - 1]) else s
  }

  function TrimSpace(s: string): string {
    TrimRight(TrimLeft(s))
  }

  ghost predicate Trimmed(s: string) {
    s == "" || (!IsSpace(s[0]) && !IsSpace(s[|s| - 1]))
  }

  lemma {:induction false} TrimLeftStops(s: string)
    ensures TrimLeft(s) == "" || !IsSpace(TrimLeft(s)[0])
    ensures |TrimLeft(s)| <= |s| && TrimLeft(s) == s[|s| - |TrimLeft(s)|..]
    ensures forall k | 0 <= k < |s| - |TrimLeft(s)| :: IsSpace(s[k])
  {
    if s != "" && IsSpace(s[0]) {
      TrimLeftStops(s[1..]);
      forall k | 1 <= k < |s| - |TrimLeft(s)|
        ensures IsSpace(s[k])
      {
        assert s[k] == s[1..][k - 1];
      }
    }
  }

  lemma {:induction false} TrimRightStops(s: string)
    ensures TrimRight(s) == "" || !IsSpace(TrimRight(s)[|TrimRight(s)| - 1])
    ensures TrimRight(s) <= s && forall c | c in s[|TrimRight(s)|..] :: IsSpace(c)
  {
    if s != "" && IsSpace(s[|s| - 1]) {
      var n, front := |s| - 1, s[..|s| - 1];
      TrimRightStops(front);
      assert s[|TrimRight(s)|..] == front[|TrimRight(s)|..] + [s[n]];
    }
  }

  /** t is what is left of s when only blanks are cut off its ends, all of them. */
  ghost predicate IsCore(t: string, s: string) {
    && Trimmed(t)
    && exists i, j | 0 <= i <= j <= |s| :: t == s[i..j] && forall k | 0 <= k < |s| && !(i <= k < j) :: IsSpace(s[k])
  }

  lemma TrimSpaceIsCore(s: string)
    ensures IsCore(TrimSpace(s), s)
  {
    TrimSpaceIsTrimmed(s);
    TrimLeftStops(s);
    var left := TrimLeft(s);
    TrimRightStops(left);
    var i := |s| - |left|;
    var j := i + |TrimSpace(s)|;
    assert TrimSpace(s) == s[i..j];
    forall k | 0 <= k < |s| && !(i <= k < j)
      ensures IsSpace(s[k])
    {
      if k >= j { assert left[j - i..][k - j] == s[k]; }
    }
  }

  /** Trimming leaves no blank at either end, adds nothing, and does nothing the second time. */
  lemma TrimSpaceIsTrimmed(s: string)
    ensures Trimmed(TrimSpace(s))
    ensures TrimSpace(TrimSpace(s)) == TrimSpace(s)
    ensures forall c | c in TrimSpace(s) :: c in s
  {
    TrimLeftStops(s);
    TrimRightStops(TrimLeft(s));
    assert Trimmed(TrimSpace(s));
    TrimmedIsFixed(TrimSpace(s));
  }

  lemma TrimmedIsFixed(s: string)
    requires Trimmed(s)
    ensures TrimSpace(s) == s
  {
  }

  /** A text has one core. */
  lemma CoreIsUnique(a: string, b: string, s: string)
    requires IsCore(a, s) && IsCore(b, s)
    ensures a == b
  {
    hide IsSpace, Trimmed;
    var i, j :| 0 <= i <= j <= |s| && a == s[i..j] && forall k | 0 <= k < |s| && !(i <= k < j) :: IsSpace(s[k]);
    var l, m :| 0 <= l <= m <= |s| && b == s[l..m] && forall k | 0 <= k < |s| && !(l <= k < m) :: IsSpace(s[k]);
    CoreWithin(s, i, j, l, m);
    CoreWithin(s, l, m, i, j);
  }

  lemma CoreWithin(s: string, i: int, j: int, l: int, m: int)
    requires 0 <= i <= j <= |s| && Trimmed(s[i..j])
    requires 0 <= l <= m <= |s| && forall k | 0 <= k < |s| && !(l <= k < m) :: IsSpace(s[k])
    ensures i == j || l <= i < j <= m
  {
    hide IsSpace;
    if i < j {
      var t := s[i..j];
      assert t[0] == s[i] && t[|t| - 1] == s[j - 1];
    }
  }

  /** Something is left exactly when something shows. */
  lemma TrimSpaceShowsIff(s: string)
    ensures TrimSpace(s) != "" <==> exists c :: c in s && !IsSpace(c)
  {
    TrimSpaceIsCore(s);
    TrimSpaceIsTrimmed(s);
    hide TrimSpace, IsSpace;
    if TrimSpace(s) != "" {
      assert TrimSpace(s)[0] in s;
    }
  }

  /** A label or note that may be shown: not blank, short enough, free of control characters. */
  predicate Presentable(s: string, maxRunes: nat) {
    TrimSpace(s) != "" && |s| <= maxRunes && !HasControl(s)
  }
}
