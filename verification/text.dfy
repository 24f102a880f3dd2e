/** Python's str.replace(old, new) with a non-empty pattern, and substring search. */
module Text {

  /** `pat in s` for a non-empty pattern. */
  predicate Occurs(s: string, pat: string)
  {
    exists i :: 0 <= i <= |s| && OccursAt(s, pat, i)
  }

  predicate OccursAt(s: string, pat: string, i: int)
  {
    0 <= i && i + |pat| <= |s| && s[i..i + |pat|] == pat
  }

  /**
   * s.replace(pat, rep): every occurrence of pat, scanned left to right
   * without overlap, is replaced by rep.
   */
  function ReplaceAll(s: string, pat: string, rep: string): (r: string)
    requires pat != []
    ensures rep == pat ==> r == s
    decreases |s|
  {
    if |s| < |pat| then s
    else if s[..|pat|] == pat then
      assert s == s[..|pat|] + s[|pat|..];
      rep + ReplaceAll(s[|pat|..], pat, rep)
    else [s[0]] + ReplaceAll(s[1..], pat, rep)
  }

  /** Without an occurrence of the pattern, replace leaves the string as it is. */
  lemma {:induction false} ReplaceAllAbsent(s: string, pat: string, rep: string)
    requires pat != [] && !Occurs(s, pat)
    ensures ReplaceAll(s, pat, rep) == s
  {
    if |s| >= |pat| {
      assert s[..|pat|] != pat by { assert !OccursAt(s, pat, 0); }
      assert !Occurs(s[1..], pat) by {
        if Occurs(s[1..], pat) {
          var i :| 0 <= i <= |s[1..]| && OccursAt(s[1..], pat, i);
          assert s[1..][i..i + |pat|] == s[i + 1..i + 1 + |pat|];
          assert OccursAt(s, pat, i + 1);
        }
      }
      ReplaceAllAbsent(s[1..], pat, rep);
      assert s == [s[0]] + s[1..];
    }
  }

  /** replace at a position where the pattern starts. */
  lemma ReplaceAtMatch(s: string, pat: string, rep: string)
    requires pat != [] && |s| >= |pat| && s[..|pat|] == pat
    ensures ReplaceAll(s, pat, rep) == rep + ReplaceAll(s[|pat|..], pat, rep)
  {
  }

  /** replace at a position where the pattern does not start. */
  lemma ReplaceAtMismatch(s: string, pat: string, rep: string)
    requires pat != [] && |s| >= |pat| && s[..|pat|] != pat
    ensures ReplaceAll(s, pat, rep) == [s[0]] + ReplaceAll(s[1..], pat, rep)
  {
  }

  /** An occurrence past the start is an occurrence in the tail. */
  lemma OccursInTail(s: string, pat: string, i: int)
    requires pat != [] && 0 < i && OccursAt(s, pat, i)
    ensures OccursAt(s[1..], pat, i - 1)
  {
    assert s[1..][i - 1..i - 1 + |pat|] == s[i..i + |pat|];
  }

  /**
   * The first occurrence is replaced and the scan resumes after it: when
   * pat does not occur in a, nor straddle the end of a, then
   * (a + pat + b).replace(pat, rep) == a + rep + b.replace(pat, rep).
   */
  lemma {:induction false} ReplaceFirst(a: string, pat: string, b: string, rep: string)
    requires pat != [] && !Occurs(a + pat[..|pat| - 1], pat)
    ensures ReplaceAll(a + pat + b, pat, rep) == a + rep + ReplaceAll(b, pat, rep)
  {
    if a == [] {
      var s := a + pat + b;
      assert s[..|pat|] == pat && s[|pat|..] == b;
    } else {
      var s := ScanPastFirst(a, pat, b);
      ReplaceFirst(a[1..], pat, b, rep);
      ReplaceAtMismatch(s, pat, rep);
      assert a == [a[0]] + a[1..];
    }
  }

  /** Before the first occurrence the scan moves on by one character. */
  lemma ScanPastFirst(a: string, pat: string, b: string) returns (s: string)
    requires pat != [] && a != [] && !Occurs(a + pat[..|pat| - 1], pat)
    ensures s == a + pat + b && |s| >= |pat| && s[..|pat|] != pat
    ensures s[0] == a[0] && s[1..] == a[1..] + pat + b
    ensures !Occurs(a[1..] + pat[..|pat| - 1], pat)
  {
    s := a + pat + b;
    var t := a + pat[..|pat| - 1];
    assert s[..|pat|] == t[..|pat|];
    assert !OccursAt(t, pat, 0);
    NotOccursTail(t, pat);
    assert t[1..] == a[1..] + pat[..|pat| - 1];
  }

  /** A string without the pattern has a tail without it. */
  lemma NotOccursTail(t: string, pat: string)
    requires t != [] && !Occurs(t, pat)
    ensures !Occurs(t[1..], pat)
  {
    forall i | 0 <= i <= |t[1..]| ensures !OccursAt(t[1..], pat, i) {
      if OccursAt(t[1..], pat, i) {
        assert t[1..][i..i + |pat|] == t[i + 1..i + 1 + |pat|];
        assert OccursAt(t, pat, i + 1);
      }
    }
  }

  /**
   * A name that ends in the pattern and has no other occurrence of it: the
   * replacement only swaps the ending (".frd" cannot overlap itself).
   */
  lemma ReplaceExtension(base: string, rep: string)
    requires !Occurs(base, ".frd")
    ensures ReplaceAll(base + ".frd", ".frd", rep) == base + rep
  {
    NoStraddle(base);
    assert ".frd"[..3] == ".fr";
    ReplaceFirst(base, ".frd", [], rep);
    assert base + ".frd" + [] == base + ".frd";
  }

  /** '.frd' cannot start in base and end in '.fr' without occurring in base. */
  lemma NoStraddle(base: string)
    requires !Occurs(base, ".frd")
    ensures !Occurs(base + ".fr", ".frd")
  {
    var t := base + ".fr";
    forall i | 0 <= i <= |t| ensures !OccursAt(t, ".frd", i) {
      if i + 4 <= |base| {
        assert t[i..i + 4] == base[i..i + 4];
        assert !OccursAt(base, ".frd", i);
      } else if i + 4 <= |t| {
        assert t[i..i + 4][|base| - i] == t[|base|] == '.';
      }
    }
  }

  /**
   * The two cases of a file name: without '.frd' it is kept; as
   * '<base>.frd' with no other '.frd' it becomes base + rep.
   */
  lemma ReplaceNameCases(name: string, rep: string)
    ensures !Occurs(name, ".frd") ==> ReplaceAll(name, ".frd", rep) == name
    ensures |name| >= 4 && name[|name| - 4..] == ".frd" && !Occurs(name[..|name| - 4], ".frd") ==>
      ReplaceAll(name, ".frd", rep) == name[..|name| - 4] + rep
  {
    if !Occurs(name, ".frd") {
      ReplaceAllAbsent(name, ".frd", rep);
    }
    if |name| >= 4 && name[|name| - 4..] == ".frd" && !Occurs(name[..|name| - 4], ".frd") {
      assert name == name[..|name| - 4] + ".frd";
      ReplaceExtension(name[..|name| - 4], rep);
    }
  }

  /**
   * Replacing an occurring pattern by two replacements that differ at some
   * position both have gives two different strings.
   */
  lemma {:induction false} ReplaceAllDistinct(s: string, pat: string, r1: string, r2: string, k: nat)
    requires pat != [] && Occurs(s, pat)
    requires k < |r1| && k < |r2| && r1[k] != r2[k]
    ensures ReplaceAll(s, pat, r1) != ReplaceAll(s, pat, r2)
  {
    var i :| 0 <= i <= |s| && OccursAt(s, pat, i);
    if s[..|pat|] == pat {
      ReplaceAtMatch(s, pat, r1);
      ReplaceAtMatch(s, pat, r2);
      assert ReplaceAll(s, pat, r1)[k] == r1[k];
      assert ReplaceAll(s, pat, r2)[k] == r2[k];
    } else {
      OccursInTail(s, pat, i);
      ReplaceAllDistinct(s[1..], pat, r1, r2, k);
      ReplaceAtMismatch(s, pat, r1);
      ReplaceAtMismatch(s, pat, r2);
      assert ReplaceAll(s, pat, r1)[1..] == ReplaceAll(s[1..], pat, r1);
      assert ReplaceAll(s, pat, r2)[1..] == ReplaceAll(s[1..], pat, r2);
    }
  }

}
