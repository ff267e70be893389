/**
  The POSIX `basename` of a path: the last path segment, ignoring any
  separators that trail it. `Basename("/a/b/c.ts") == "c.ts"`,
  `Basename("a/b//") == "b"`, and the basename of `""` or of `"///"` is `""`.
 */
module PosixPath {

  /** The one path separator of POSIX paths. */
  const Separator: char := '/'

  /** True if every character of `s` is a separator (vacuously so for `""`). */
  predicate AllSeparators(s: string) {
    forall i :: 0 <= i < |s| ==> s[i] == Separator
  }

  /** True if `d` can stand before a path segment: empty, or ending in a separator. */
  predicate IsDirPrefix(d: string) {
    d == [] || d[|d| - 1] == Separator
  }

  /**
    True if `p` is the directory part `d`, then the segment `b` (which holds
    no separator), then only separators `t`. This is the independent reading
    of "the final path segment of `p` is `b`".
   */
  predicate IsSplit(p: string, d: string, b: string, t: string) {
    && p == d + b + t
    && IsDirPrefix(d)
    && Separator !in b
    && AllSeparators(t)
  }

  /** `p` with every trailing separator removed. */
  function TrimTrailingSeparators(p: string): string
    decreases |p|
  {
    if p != [] && p[|p| - 1] == Separator then TrimTrailingSeparators(p[..|p| - 1]) else p
  }

  /** The text of `s` after its last separator, or all of `s` if it has none. */
  function AfterLastSeparator(s: string): string
    decreases |s|
  {
    if s == [] || s[|s| - 1] == Separator then [] else AfterLastSeparator(s[..|s| - 1]) + [s[|s| - 1]]
  }

  /**
    The final path segment of `p`, as POSIX `basename` computes it without a
    suffix argument: trailing separators are dropped, then what follows the
    last separator is kept.
   */
  function Basename(p: string): string {
    AfterLastSeparator(TrimTrailingSeparators(p))
  }

  /**
    Trimming keeps a prefix of `p` that does not end in a separator and
    drops only separators.
   */
  lemma {:induction false} TrimTrailingSeparatorsShape(p: string)
    ensures var r := TrimTrailingSeparators(p);
      && r <= p
      && (r == [] || r[|r| - 1] != Separator)
      && AllSeparators(p[|r|..])
    decreases |p|
  {
    if p != [] && p[|p| - 1] == Separator {
      var p' := p[..|p| - 1];
      TrimTrailingSeparatorsShape(p');
      var r := TrimTrailingSeparators(p');
      assert p[|r|..] == p'[|r|..] + [Separator];
    }
  }

  /**
    The text after the last separator is a suffix of `s` without separators,
    and the character just before it, if any, is a separator.
   */
  lemma {:induction false} AfterLastSeparatorShape(s: string)
    ensures var r := AfterLastSeparator(s);
      && |r| <= |s| && r == s[|s| - |r|..]
      && Separator !in r
      && (|r| < |s| ==> s[|s| - |r| - 1] == Separator)
    decreases |s|
  {
    if s != [] && s[|s| - 1] != Separator {
      var s' := s[..|s| - 1];
      AfterLastSeparatorShape(s');
      var r' := AfterLastSeparator(s');
      assert s'[|s'| - |r'|..] + [s[|s| - 1]] == s[|s| - 1 - |r'|..];
    }
  }

  /**
    The basename holds no separator, is no longer than the path, and is
    empty exactly when the path is empty or made of separators only.
   */
  lemma BasenameShape(p: string)
    ensures Separator !in Basename(p)
    ensures |Basename(p)| <= |p|
    ensures Basename(p) == [] <==> AllSeparators(p)
  {
    TrimTrailingSeparatorsShape(p);
    AfterLastSeparatorShape(TrimTrailingSeparators(p));
    assert p[0..] == p;
  }

  /** Removing trailing separators from `db + t` gives back `db` when `db` does not end in one. */
  lemma {:induction false} TrimOfTrailing(db: string, t: string)
    requires db == [] || db[|db| - 1] != Separator
    requires AllSeparators(t)
    ensures TrimTrailingSeparators(db + t) == db
    decreases |t|
  {
    if t != [] {
      var t' := t[..|t| - 1];
      assert (db + t)[..|db + t| - 1] == db + t';
      TrimOfTrailing(db, t');
    } else {
      assert db + t == db;
    }
  }

  /** The text after the last separator of `d + b` is `b` when `d` ends in one and `b` has none. */
  lemma {:induction false} AfterLastOfDirPrefix(d: string, b: string)
    requires IsDirPrefix(d)
    requires Separator !in b
    ensures AfterLastSeparator(d + b) == b
    decreases |b|
  {
    if b == [] {
      assert d + b == d;
    } else {
      var b' := b[..|b| - 1];
      assert b[|b| - 1] in b;
      assert (d + b)[|d + b| - 1] == b[|b| - 1];
      assert (d + b)[..|d + b| - 1] == d + b';
      AfterLastOfDirPrefix(d, b');
      assert b' + [b[|b| - 1]] == b;
    }
  }

  /** Completeness of `Basename`: any split of `p` with a non-empty segment yields that segment. */
  lemma BasenameOfSplit(p: string, d: string, b: string, t: string)
    requires IsSplit(p, d, b, t)
    requires b != []
    ensures Basename(p) == b
  {
    assert b[|b| - 1] in b;
    assert p == (d + b) + t;
    TrimOfTrailing(d + b, t);
    AfterLastOfDirPrefix(d, b);
  }

  /** Soundness of `Basename`: a non-empty basename is the segment of an actual split of `p`. */
  lemma BasenameSplits(p: string)
    requires Basename(p) != []
    ensures exists d, t :: IsSplit(p, d, Basename(p), t)
  {
    var trimmed := TrimTrailingSeparators(p);
    TrimTrailingSeparatorsShape(p);
    AfterLastSeparatorShape(trimmed);
    var b := Basename(p);
    var k := |trimmed| - |b|;
    var d := trimmed[..k];
    var t := p[|trimmed|..];
    assert b == trimmed[k..];
    assert trimmed == d + b by {
      assert trimmed == trimmed[..k] + trimmed[k..];
    }
    assert p == trimmed + t by {
      assert trimmed == p[..|trimmed|];
    }
    assert IsSplit(p, d, b, t);
  }

  /** A name without separators is its own basename. */
  lemma BasenameOfBareName(s: string)
    requires Separator !in s
    ensures Basename(s) == s
  {
    if s != [] {
      assert s == [] + s + [];
      BasenameOfSplit(s, [], s, []);
    }
  }

  /**
    Taking the basename twice changes nothing. The extractor does not rely
    on this; it is a property of the basename model, which POSIX `basename`
    shares.
   */
  lemma BasenameIdempotent(p: string)
    ensures Basename(Basename(p)) == Basename(p)
  {
    BasenameShape(p);
    BasenameOfBareName(Basename(p));
  }

  /** A directory prefix joined to a bare name by a separator does not change its basename. */
  lemma BasenameOfJoin(dir: string, name: string)
    requires name != [] && Separator !in name
    ensures Basename(dir + [Separator] + name) == name
  {
    var p := dir + [Separator] + name;
    assert p == (dir + [Separator]) + name + [];
    BasenameOfSplit(p, dir + [Separator], name, []);
  }
}
