/**
  POSIX path handling as Node's `path` module performs it with separator '/':
  splitting and joining on the separator, `path.resolve` against an absolute base,
  and the string form of an absolute path.
 */
module PosixPaths {

  /** An absolute path as its list of segments: "/" is [] and "/var/www" is ["var", "www"]. */
  type Path = seq<string>

  /** A segment of a normalised path: non-empty, not "." or "..", and free of the separator. */
  predicate IsSegment(s: string) {
    s != "" && s != "." && s != ".." && '/' !in s
  }

  /** A normalised absolute path, as `path.resolve` returns them. */
  predicate Canonical(p: Path) {
    forall i :: 0 <= i < |p| ==> IsSegment(p[i])
  }

  /** No part contains the separator. */
  predicate NoSeparator(parts: seq<string>) {
    forall i :: 0 <= i < |parts| ==> '/' !in parts[i]
  }

  /** `s.split('/')`: the maximal separator-free runs of `s`, empty ones included. */
  function Split(s: string): (parts: seq<string>)
    ensures |parts| >= 1
    ensures NoSeparator(parts)
    decreases |s|
  {
    if s == [] then [""]
    else
      var rest := Split(s[1..]);
      if s[0] == '/' then [""] + rest
      else [[s[0]] + rest[0]] + rest[1..]
  }

  /** `parts.join('/')`. */
  function Join(parts: seq<string>): string
    decreases |parts|
  {
    if parts == [] then ""
    else if |parts| == 1 then parts[0]
    else parts[0] + "/" + Join(parts[1..])
  }

  /** Joining the parts of a split gives back the string. */
  lemma {:induction false} JoinSplit(s: string)
    ensures Join(Split(s)) == s
    decreases |s|
  {
    if s != [] {
      var rest := Split(s[1..]);
      JoinSplit(s[1..]);
      if s[0] == '/' {
        assert Split(s) == [""] + rest;
        assert ([""] + rest)[1..] == rest;
      } else if |rest| == 1 {
        assert Split(s) == [[s[0]] + rest[0]];
      } else {
        var parts := Split(s);
        assert parts[1..] == rest[1..];
        assert Join(rest) == rest[0] + "/" + Join(rest[1..]);
      }
    }
  }

  /** A separator-free prefix followed by a separator splits off as one part. */
  lemma {:induction false} SplitAfterPart(a: string, t: string)
    requires '/' !in a
    ensures Split(a + "/" + t) == [a] + Split(t)
    decreases |a|
  {
    if a == [] {
      assert ("/" + t)[1..] == t;
    } else {
      SplitAfterPart(a[1..], t);
      assert (a + "/" + t)[1..] == a[1..] + "/" + t;
      assert [a[0]] + a[1..] == a;
    }
  }

  /** A separator-free string splits into itself alone. */
  lemma {:induction false} SplitSinglePart(a: string)
    requires '/' !in a
    ensures Split(a) == [a]
    decreases |a|
  {
    if a != [] {
      SplitSinglePart(a[1..]);
      assert [a[0]] + a[1..] == a;
    }
  }

  /** Splitting a join of separator-free parts gives back the parts. */
  lemma {:induction false} SplitJoin(parts: seq<string>)
    requires |parts| >= 1 && NoSeparator(parts)
    ensures Split(Join(parts)) == parts
    decreases |parts|
  {
    if |parts| == 1 {
      SplitSinglePart(parts[0]);
    } else {
      SplitJoin(parts[1..]);
      SplitAfterPart(parts[0], Join(parts[1..]));
      assert [parts[0]] + parts[1..] == parts;
    }
  }

  /** The step `path.resolve` takes for one part: empty and "." stay, ".." climbs (never above "/"), others descend. */
  function Step(base: Path, part: string): (r: Path)
    ensures (|r| <= |base| && r == base[..|r|]) || r == base + [part]
    ensures Canonical(base) && '/' !in part ==> Canonical(r)
  {
    if part == "" || part == "." then base
    else if part == ".." then (if base == [] then [] else base[..|base| - 1])
    else base + [part]
  }

  /** Walking the parts of a relative path from an absolute base. */
  function Walk(base: Path, parts: seq<string>): (r: Path)
    ensures |r| <= |base| + |parts|
    decreases |parts|
  {
    if parts == [] then base else Walk(Step(base, parts[0]), parts[1..])
  }

  /** Walking a first part, then the rest. */
  lemma WalkCons(base: Path, part: string, rest: seq<string>)
    ensures Walk(base, [part] + rest) == Walk(Step(base, part), rest)
  {
    assert ([part] + rest)[1..] == rest;
  }

  /** `path.resolve(base, s)`: an absolute `s` restarts from "/", a relative one continues from `base`. */
  function Resolve(base: Path, s: string): (r: Path)
    ensures |r| <= (if |s| > 0 && s[0] == '/' then 0 else |base|) + |Split(s)|
  {
    if |s| > 0 && s[0] == '/' then Walk([], Split(s)) else Walk(base, Split(s))
  }

  /** An absolute path resolves to the same place against every base. */
  lemma AbsoluteIgnoresBase(base1: Path, base2: Path, s: string)
    requires |s| > 0 && s[0] == '/'
    ensures Resolve(base1, s) == Resolve(base2, s)
  {
  }

  /** Walking separator-free parts from a normalised path ends at a normalised path. */
  lemma {:induction false} WalkKeepsCanonical(base: Path, parts: seq<string>)
    requires Canonical(base) && NoSeparator(parts)
    ensures Canonical(Walk(base, parts))
    decreases |parts|
  {
    if parts != [] {
      var next := Step(base, parts[0]);
      if parts[0] == ".." && base != [] {
        assert forall i :: 0 <= i < |next| ==> next[i] == base[i];
      }
      assert Canonical(next);
      WalkKeepsCanonical(next, parts[1..]);
    }
  }

  /** `path.resolve` against a normalised base returns a normalised path. */
  lemma ResolveIsCanonical(base: Path, s: string)
    requires Canonical(base)
    ensures Canonical(Resolve(base, s))
  {
    WalkKeepsCanonical([], Split(s));
    WalkKeepsCanonical(base, Split(s));
  }

  /** Each segment of `p` preceded by the separator. */
  function Cat(p: Path): string
    decreases |p|
  {
    if p == [] then "" else "/" + p[0] + Cat(p[1..])
  }

  /** The string form of an absolute path: "/" for the root, "/a/b" otherwise, never a trailing separator. */
  function ToString(p: Path): string {
    if p == [] then "/" else Cat(p)
  }

  /** Walking already-normalised segments appends them. */
  lemma {:induction false} WalkCanonical(base: Path, p: Path)
    requires Canonical(base) && Canonical(p)
    ensures Walk(base, p) == base + p
    decreases |p|
  {
    if p != [] {
      var next := base + [p[0]];
      assert Step(base, p[0]) == next;
      assert Canonical(next) by {
        assert forall i :: 0 <= i < |base| ==> next[i] == base[i];
      }
      WalkCanonical(next, p[1..]);
      assert next + p[1..] == base + p;
    }
  }

  /** The string form of a non-root path is the separator before the joined segments. */
  lemma {:induction false} CatIsJoin(p: Path)
    requires p != []
    ensures Cat(p) == "/" + Join(p)
    decreases |p|
  {
    if |p| > 1 {
      CatIsJoin(p[1..]);
    }
  }

  /** Resolving the string form of a normalised path, against any base, gives the path back. */
  lemma ResolveToString(base: Path, p: Path)
    requires Canonical(base) && Canonical(p)
    ensures Resolve(base, ToString(p)) == p
  {
    if p == [] {
      assert Split("/") == ["", ""];
      assert Walk([], ["", ""]) == Walk([], [""]) == [];
    } else {
      CatIsJoin(p);
      assert ToString(p) == "/" + Join(p);
      SplitAfterPart("", Join(p));
      SplitJoin(p);
      assert Split(ToString(p)) == [""] + p;
      WalkCanonical([], p);
    }
  }

  /** The string form of a concatenation. */
  lemma {:induction false} CatAppend(p: Path, q: Path)
    ensures Cat(p + q) == Cat(p) + Cat(q)
    decreases |p|
  {
    if p != [] {
      CatAppend(p[1..], q);
      assert (p + q)[1..] == p[1..] + q;
      assert (p + q)[0] == p[0];
      assert Cat(p + q) == "/" + p[0] + Cat(p[1..] + q);
      assert Cat(p) == "/" + p[0] + Cat(p[1..]);
    } else {
      assert p + q == q;
    }
  }

  /** One separator-free part, then a separator, cannot be a prefix of another such unless the parts agree. */
  lemma FirstPartsAgree(a: string, x: string, b: string, y: string)
    requires '/' !in a && '/' !in b
    requires |x| > 0 && x[0] == '/' && |y| > 0 && y[0] == '/'
    requires a + x <= b + y
    ensures a == b && x <= y
  {
    assert a == (a + x)[..|a|] == (b + y)[..|b|] == b;
    assert x == (a + x)[|a|..];
    assert y == (b + y)[|b|..];
  }

  /** A segment prefix gives a textual prefix once both string forms end in a separator. */
  lemma SeparatedPrefixOfPrefix(w: Path, d: Path)
    requires w <= d
    ensures Cat(w) + "/" <= Cat(d) + "/"
  {
    var rest := d[|w|..];
    assert w + rest == d;
    CatAppend(w, rest);
    assert Cat(d) + "/" == Cat(w) + (Cat(rest) + "/");
    assert (Cat(rest) + "/")[0] == '/';
  }

  /** A common leading separator can be dropped from both sides of a prefix. */
  lemma DropLeadingSlash(u: string, v: string)
    requires "/" + u <= "/" + v
    ensures u <= v
  {
    assert ("/" + u)[1..] == u && ("/" + v)[1..] == v;
  }

  /** A textual prefix of separator-terminated string forms comes from a segment prefix. */
  lemma {:induction false} PrefixOfSeparatedPrefix(w: Path, d: Path)
    requires NoSeparator(w) && NoSeparator(d)
    requires Cat(w) + "/" <= Cat(d) + "/"
    ensures w <= d
    decreases |w|
  {
    if w != [] {
      assert d != [];
      var x := Cat(w[1..]) + "/";
      var y := Cat(d[1..]) + "/";
      assert Cat(w) + "/" == "/" + (w[0] + x);
      assert Cat(d) + "/" == "/" + (d[0] + y);
      DropLeadingSlash(w[0] + x, d[0] + y);
      assert x[0] == '/' && y[0] == '/';
      assert '/' !in w[0] && '/' !in d[0];
      FirstPartsAgree(w[0], x, d[0], y);
      PrefixOfSeparatedPrefix(w[1..], d[1..]);
      assert w == [w[0]] + w[1..];
      assert d == [d[0]] + d[1..];
    }
  }

  /**
    With a separator appended, the string form of `w` is a textual prefix of that of `d`
    exactly when `w` is a segment prefix of `d`.
   */
  lemma SeparatedPrefixIff(w: Path, d: Path)
    requires NoSeparator(w) && NoSeparator(d)
    ensures Cat(w) + "/" <= Cat(d) + "/" <==> w <= d
  {
    if w <= d {
      SeparatedPrefixOfPrefix(w, d);
    }
    if Cat(w) + "/" <= Cat(d) + "/" {
      PrefixOfSeparatedPrefix(w, d);
    }
  }

  /** Distinct normalised paths have distinct string forms. */
  lemma ToStringInjective(p: Path, q: Path)
    requires Canonical(p) && Canonical(q)
    ensures ToString(p) == ToString(q) ==> p == q
  {
    if ToString(p) == ToString(q) {
      if p == [] || q == [] {
        assert p != [] ==> |Cat(p)| >= 2;
        assert q != [] ==> |Cat(q)| >= 2;
      } else {
        SeparatedPrefixIff(p, q);
        SeparatedPrefixIff(q, p);
      }
    }
  }
}
