/** Node's `path.extname` and `path.basename(p, ext)` (POSIX rules) for the
    use `getUniqueFileName` makes of them. */
module NodePath {
  import opened Wrappers

  function StripTrailingSlashes(p: string): (r: string)
    ensures |r| <= |p| && r == p[..|r|]
    ensures r == [] || r[|r| - 1] != '/'
    decreases |p|
  {
    if p != [] && p[|p| - 1] == '/' then StripTrailingSlashes(p[..|p| - 1]) else p
  }

  function AfterLastSlash(p: string): (r: string)
    ensures '/' !in r
    ensures |r| <= |p| && r == p[|p| - |r|..]
    ensures '/' !in p ==> r == p
    decreases |p|
  {
    if p == [] || p[|p| - 1] == '/' then []
    else AfterLastSlash(p[..|p| - 1]) + [p[|p| - 1]]
  }

  /** The last path component, trailing separators ignored. */
  function Component(p: string): (c: string)
    ensures '/' !in c
    ensures '/' !in p ==> c == p
  {
    AfterLastSlash(StripTrailingSlashes(p))
  }

  /** The index of the last '.' in `c`. */
  function LastDot(c: string): (r: Option<nat>)
    ensures r.Some? ==> r.value < |c| && c[r.value] == '.'
    ensures r.Some? ==> forall j :: r.value < j < |c| ==> c[j] != '.'
    ensures r.None? ==> forall j :: 0 <= j < |c| ==> c[j] != '.'
    decreases |c|
  {
    if c == [] then None
    else if c[|c| - 1] == '.' then Some(|c| - 1)
    else LastDot(c[..|c| - 1])
  }

  lemma LastDotAt(c: string, d: nat)
    requires d < |c| && c[d] == '.'
    requires forall j :: d < j < |c| ==> c[j] != '.'
    ensures LastDot(c) == Some(d)
  {
  }

  /** Extension of one component: from the last '.' on, unless that dot is
      the first character or the component is "..". */
  function ComponentExt(c: string): string
  {
    match LastDot(c)
    case None => ""
    case Some(d) => if d == 0 || c == ".." then "" else c[d..]
  }

  /** `path.extname(p)`: empty, or a proper suffix of the last component
      that holds no separator and whose only '.' is its first character. */
  function Extname(p: string): (ext: string)
    ensures '/' !in ext
    ensures ext == "" || (|ext| < |Component(p)| && ext == Component(p)[|Component(p)| - |ext|..])
    ensures ext != "" ==> ext[0] == '.' && forall j :: 0 < j < |ext| ==> ext[j] != '.'
  {
    var c := Component(p);
    ComponentExtShape(c);
    var ext := ComponentExt(c);
    SlicesHaveNoSlash(c, |c| - |ext|);
    ext
  }

  /** `path.basename(p, path.extname(p))`: the rest of the last component,
      which the extension completes. */
  function Stem(p: string): (stem: string)
    ensures '/' !in stem
    ensures stem + Extname(p) == Component(p)
  {
    var c := Component(p);
    var ext := Extname(p);
    SlicesHaveNoSlash(c, |c| - |ext|);
    c[..|c| - |ext|]
  }

  /** Both sides of a cut of a separator-free component are separator-free. */
  lemma SlicesHaveNoSlash(c: string, k: int)
    requires '/' !in c && 0 <= k <= |c|
    ensures '/' !in c[..k] && '/' !in c[k..] && c[..k] + c[k..] == c
  {
    assert forall x :: x in c[..k] ==> x in c;
    assert forall x :: x in c[k..] ==> x in c;
  }

  lemma ComponentExtShape(c: string)
    ensures var ext := ComponentExt(c);
      && (ext == "" || (|ext| < |c| && ext == c[|c| - |ext|..]))
      && (ext != "" ==> ext[0] == '.' && forall j :: 0 < j < |ext| ==> ext[j] != '.')
  {
  }

  /** Without an extension the stem is the whole component, whose last
      '.' (if any) is its first character, unless the component is "..". */
  lemma StemWithoutExtension(p: string)
    requires Component(p) != ".."
    ensures Extname(p) == "" ==> Stem(p) == Component(p)
    ensures Extname(p) == "" ==> LastDot(Stem(p)).None? || LastDot(Stem(p)) == Some(0)
  {
    var c := Component(p);
    assert c[..|c| - 0] == c;
  }
}

/** `getUniqueFileName`: a linear probe for a name not yet present in a
    directory. */
module UniqueName {
  import opened Wrappers
  import opened Decimal
  import opened NodePath

  /** The candidate tried after `k` collisions: `${name}(${k})${ext}`. It
      is a single path component that keeps the stem in front and the
      extension at the end, with the counter in between. */
  function Candidate(original: string, k: nat): (c: string)
    ensures '/' !in c
    ensures |c| > |Stem(original)| + |Extname(original)| + 2
    ensures c[..|Stem(original)|] == Stem(original)
    ensures c[|c| - |Extname(original)|..] == Extname(original)
  {
    CounterDigits(k);
    CounterHasNoSlash(Stem(original), NatToString(k), Extname(original));
    Stem(original) + "(" + NatToString(k) + ")" + Extname(original)
  }

  /** The `i`-th name probed: the original name, then the candidates, none
      of which is the original. */
  function Probe(original: string, i: nat): (name: string)
    ensures i == 0 <==> name == original
  {
    if i == 0 then original
    else
      OriginalIsNoCandidate(original, i - 1);
      Candidate(original, i - 1)
  }

  /** `name` is what the probe settles on: the first free name in probe
      order, reached after at most |existing| collisions. */
  ghost predicate IsFirstFree(existing: set<string>, original: string, name: string)
  {
    exists i: nat :: i <= |existing| && name == Probe(original, i) && name !in existing &&
      forall j :: 0 <= j < i ==> Probe(original, j) in existing
  }

  /** The rendered counter holds neither '/' nor '.'. */
  lemma CounterDigits(k: nat)
    ensures '/' !in NatToString(k) && '.' !in NatToString(k)
  {
    var d := NatToString(k);
    assert forall i :: 0 <= i < |d| ==> d[i] != '/' && d[i] != '.';
  }

  lemma CounterHasNoSlash(stem: string, digits: string, ext: string)
    requires '/' !in stem && '/' !in digits && '/' !in ext
    ensures '/' !in stem + "(" + digits + ")" + ext
  {
  }

  lemma {:induction false} CandidateInjective(original: string, a: nat, b: nat)
    requires Candidate(original, a) == Candidate(original, b)
    ensures a == b
  {
    CounterInjective(Stem(original), NatToString(a), NatToString(b), Extname(original));
    NatToStringInjective(a, b);
  }

  lemma CounterInjective(name: string, x: string, y: string, ext: string)
    requires name + "(" + x + ")" + ext == name + "(" + y + ")" + ext
    ensures x == y
  {
    var c := name + "(" + x + ")" + ext;
    assert |x| == |y|;
    assert x == c[|name| + 1..|name| + 1 + |x|];
    assert y == c[|name| + 1..|name| + 1 + |y|];
  }

  lemma OriginalIsNoCandidate(original: string, k: nat)
    ensures original != Candidate(original, k)
  {
    if '/' !in original {
      assert Component(original) == original;
    }
  }

  lemma ProbesDistinct(original: string, i: nat, j: nat)
    requires i != j
    ensures Probe(original, i) != Probe(original, j)
  {
    if i == 0 {
      OriginalIsNoCandidate(original, j - 1);
    } else if j == 0 {
      OriginalIsNoCandidate(original, i - 1);
    } else if Candidate(original, i - 1) == Candidate(original, j - 1) {
      CandidateInjective(original, i - 1, j - 1);
    }
  }

  /** The probe's result is determined by the directory state and the name. */
  lemma FirstFreeUnique(existing: set<string>, original: string, a: string, b: string)
    requires IsFirstFree(existing, original, a) && IsFirstFree(existing, original, b)
    ensures a == b
  {
    var i: nat :| i <= |existing| && a == Probe(original, i) && a !in existing &&
      forall j :: 0 <= j < i ==> Probe(original, j) in existing;
    var k: nat :| k <= |existing| && b == Probe(original, k) && b !in existing &&
      forall j :: 0 <= j < k ==> Probe(original, j) in existing;
  }

  /** The probe settles on a free name that is the original or holds no
      '/'. */
  lemma FirstFreeIsProbe(existing: set<string>, original: string, name: string)
    requires IsFirstFree(existing, original, name)
    ensures name !in existing
    ensures name == original || '/' !in name
  {
    var i: nat :| i <= |existing| && name == Probe(original, i) && name !in existing &&
      forall j :: 0 <= j < i ==> Probe(original, j) in existing;
  }

  /** Every candidate keeps the original extension, except for the component
      "..", whose candidates acquire one (see `DotDotGainsExtension`). */
  lemma CounterKeepsExtension(stem: string, digits: string, ext: string)
    requires '.' !in digits
    requires ext != "" ==> ext[0] == '.' && forall j :: 0 < j < |ext| ==> ext[j] != '.'
    requires ext == "" ==> LastDot(stem).None? || LastDot(stem) == Some(0)
    ensures ComponentExt(stem + "(" + digits + ")" + ext) == ext
  {
    var head := stem + "(" + digits + ")";
    var c := head + ext;
    assert forall j :: |stem| <= j < |head| ==> head[j] != '.' by {
      forall j | |stem| <= j < |head| ensures head[j] != '.' {
        if |stem| < j < |head| - 1 {
          assert head[j] == digits[j - |stem| - 1];
        }
      }
    }
    if ext != "" {
      LastDotAt(c, |head|);
      assert c[|head|..] == ext;
    } else if LastDot(stem).None? {
      assert forall j :: 0 <= j < |c| ==> c[j] != '.';
      assert LastDot(c) == None;
    } else {
      assert forall j :: 0 < j < |c| ==> c[j] != '.';
      LastDotAt(c, 0);
    }
  }

  lemma CandidateKeepsExtension(original: string, k: nat)
    requires Component(original) != ".."
    ensures Extname(Candidate(original, k)) == Extname(original)
  {
    var stem, ext, digits := Stem(original), Extname(original), NatToString(k);
    var candidate := stem + "(" + digits + ")" + ext;
    assert Candidate(original, k) == candidate;
    StemWithoutExtension(original);
    CounterDigits(k);
    CounterHasNoSlash(stem, digits, ext);
    CounterKeepsExtension(stem, digits, ext);
    assert Component(candidate) == candidate;
  }

  /** The one name whose candidates change extension. */
  lemma DotDotGainsExtension()
    ensures Extname("..") == ""
    ensures Candidate("..", 0) == "..(0)"
    ensures Extname(Candidate("..", 0)) == ".(0)"
  {
    DotDotSplit();
    ZeroDigits();
    CandidateIs("..", 0, "..", "0", "");
    assert ".." + "(" + "0" + ")" + "" == "..(0)";
    DotDotZeroExtension();
  }

  lemma ZeroDigits()
    ensures NatToString(0) == "0"
  {
    assert NatToString(0) == [DigitChar(0)];
  }

  /** A candidate assembled from known parts. */
  lemma CandidateIs(original: string, k: nat, stem: string, digits: string, ext: string)
    requires Stem(original) == stem && NatToString(k) == digits && Extname(original) == ext
    ensures Candidate(original, k) == stem + "(" + digits + ")" + ext
  {
  }

  lemma DotDotSplit()
    ensures Extname("..") == "" && Stem("..") == ".."
  {
    var c := "..";
    assert '/' !in c;
    assert Component(c) == c;
    LastDotAt(c, 1);
    assert c[..|c| - 0] == c;
  }

  lemma DotDotZeroExtension()
    ensures Extname("..(0)") == ".(0)"
  {
    var c := "..(0)";
    assert '/' !in c && c != "..";
    ExtnameAt(c, 1);
    assert c[1..] == ".(0)";
  }

  /** The extension of a single component whose last '.' is at `d > 0`. */
  lemma ExtnameAt(p: string, d: nat)
    requires '/' !in p && p != ".."
    requires 0 < d < |p| && p[d] == '.' && forall j :: d < j < |p| ==> p[j] != '.'
    ensures Extname(p) == p[d..]
  {
    assert Component(p) == p;
    LastDotAt(p, d);
  }

  /** The values `f(0)`, ..., `f(n - 1)`. */
  ghost function ImageBelow(f: nat -> string, n: nat): set<string>
    decreases n
  {
    if n == 0 then {} else ImageBelow(f, n - 1) + {f(n - 1)}
  }

  lemma {:induction false} ImageBelowHas(f: nat -> string, n: nat, j: nat)
    requires j < n
    ensures f(j) in ImageBelow(f, n)
    decreases n
  {
    if j < n - 1 {
      ImageBelowHas(f, n - 1, j);
    }
  }

  lemma {:induction false} ImageBelowMisses(f: nat -> string, n: nat, m: nat)
    requires n <= m
    requires forall i: nat :: i < n ==> f(i) != f(m)
    ensures f(m) !in ImageBelow(f, n)
    decreases n
  {
    if n > 0 {
      ImageBelowMisses(f, n - 1, m);
    }
  }

  /** `n` pairwise distinct values make a set of `n` elements. */
  lemma {:induction false} ImageBelowCount(f: nat -> string, n: nat)
    requires forall i: nat, j: nat :: i < j < n ==> f(i) != f(j)
    ensures |ImageBelow(f, n)| == n
    decreases n
  {
    if n > 0 {
      ImageBelowCount(f, n - 1);
      ImageBelowMisses(f, n - 1, n - 1);
    }
  }

  ghost function ProbeOf(original: string): nat -> string
  {
    (i: nat) => Probe(original, i)
  }

  /** The names probed before the `n`-th probe. */
  ghost function Probed(original: string, n: nat): set<string>
  {
    ImageBelow(ProbeOf(original), n)
  }

  /** After `n` probes, `n` distinct names have been tried. */
  lemma ProbedCount(original: string, n: nat)
    ensures |Probed(original, n)| == n
  {
    var f := ProbeOf(original);
    forall i: nat, j: nat | i < j < n ensures f(i) != f(j) {
      ProbesDistinct(original, i, j);
    }
    ImageBelowCount(f, n);
  }

  lemma ProbedHas(original: string, n: nat, j: nat)
    requires j < n
    ensures Probe(original, j) in Probed(original, n)
  {
    ImageBelowHas(ProbeOf(original), n, j);
  }

  lemma SubsetCount(a: set<string>, b: set<string>)
    requires a <= b
    ensures |a| <= |b|
  {
    assert b == a + (b - a);
  }

  /** `getUniqueFileName(directory, originalName)`, with `existing` the names
      for which `fs.existsSync(path.join(directory, name))` holds. */
  method UniqueFileName(existing: set<string>, originalName: string) returns (safeName: string)
    ensures safeName !in existing
    ensures originalName !in existing ==> safeName == originalName
    ensures IsFirstFree(existing, originalName, safeName)
  {
    var ext := Extname(originalName);
    var name := Stem(originalName);

    safeName := originalName;
    var counter: nat := 0;

    while safeName in existing
      invariant safeName == Probe(originalName, counter)
      invariant Probed(originalName, counter) <= existing
      invariant counter <= |existing|
      decreases |existing| - counter
    {
      ProbedCount(originalName, counter + 1);
      SubsetCount(Probed(originalName, counter + 1), existing);
      safeName := name + "(" + NatToString(counter) + ")" + ext;
      counter := counter + 1;
    }
    forall j | 0 <= j < counter ensures Probe(originalName, j) in existing {
      ProbedHas(originalName, counter, j);
    }
  }
}
