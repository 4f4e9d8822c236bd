/** The prioritised base paths of the path resolver (src/PathResolver.cpp):
    a list of base directories kept in non-increasing priority, and relative
    paths that are resolved against one of them. */
module PathResolver {
  import opened Wrappers

  /** `unsigned int`. */
  newtype uint32 = x: int | 0 <= x < 0x1_0000_0000

  /** `PathType::PathType`; its enumerators are declared in a header that is
      not part of this model, so a kind is known only by its number. */
  datatype PathType = PathType(code: nat)

  /** A base directory with its kind and its priority. */
  datatype PriorizedPath = PriorizedPath(pathType: PathType, basePath: string, priority: uint32)
  {
    function GetPath(): (base: string)
      ensures base == basePath
    {
      basePath
    }
  }

  /** The constructor stores its three arguments and `getPath` gives back the base. */
  lemma PriorizedPathStoresArguments(pathType: PathType, basePath: string, priority: uint32)
    ensures var p := PriorizedPath(pathType, basePath, priority);
      p.pathType == pathType && p.GetPath() == basePath && p.priority == priority
  {
  }

  /** A path relative to the base paths. */
  datatype Path = Path(path: string)
  {
    /** A new path one component deeper; the receiver is a value and stays as it is. */
    function Add(component: string): (r: Path)
      ensures r.ToString() == ToString() + "/" + component
      ensures r.ToString()[..|ToString()|] == ToString()
    {
      Path(path + "/" + component)
    }

    function ToString(): (s: string)
      ensures s == path
    {
      path
    }

    /** The path resolved against the base path at `index` of `bases` (the
        static base-path list): the base and the path joined by one "/", or
        the bare path when the base is empty. An index the list does not
        have, negative ones included (they compare as huge unsigned values),
        gives no path. */
    function GetPath(bases: seq<PriorizedPath>, index: int): (r: Option<string>)
      ensures r.Some? <==> 0 <= index < |bases|
      ensures r.Some? && bases[index].GetPath() == "" ==> r.value == path
      ensures r.Some? && bases[index].GetPath() != "" ==> r.value == bases[index].GetPath() + "/" + path
      ensures r.Some? ==> |r.value| >= |path| && r.value[|r.value| - |path|..] == path
    {
      if 0 <= index < |bases| then
        var base := bases[index].GetPath();
        Some(base + (if base != "" then "/" else "") + path)
      else
        None
    }
  }

  /** `Path()`: the empty relative path, which resolves to the base itself
      (with a trailing "/" when the base is not empty). */
  function EmptyPath(): (p: Path)
    ensures p.ToString() == ""
  {
    Path("")
  }

  /** Resolving the empty path gives the base followed by "/", or "" for an empty base. */
  lemma EmptyPathResolvesToBase(bases: seq<PriorizedPath>, index: int)
    requires 0 <= index < |bases|
    ensures bases[index].GetPath() != "" ==> EmptyPath().GetPath(bases, index) == Some(bases[index].GetPath() + "/")
    ensures bases[index].GetPath() == "" ==> EmptyPath().GetPath(bases, index) == Some("")
  {
    var base := bases[index].GetPath();
    assert base + "/" + "" == base + "/";
  }

  /** The copy constructor, which goes through `toString`. */
  function CopyPath(other: Path): (r: Path)
    ensures r == other
  {
    Path(other.ToString())
  }

  /** `toString` gives back the string the path was built from. */
  lemma ToStringRoundTrip(s: string)
    ensures Path(s).ToString() == s
    ensures CopyPath(Path(s)).ToString() == s
  {
  }

  /** Resolving a deeper path is resolving the shallower one and appending
      the component. */
  lemma GetPathOfAdd(p: Path, component: string, bases: seq<PriorizedPath>, index: int)
    ensures p.Add(component).GetPath(bases, index).Some? <==> p.GetPath(bases, index).Some?
    ensures p.GetPath(bases, index).Some? ==>
      p.Add(component).GetPath(bases, index).value == p.GetPath(bases, index).value + "/" + component
  {
  }

  // ---------------------------------------------------------------------
  // Specification of orderPriorizedPaths.

  /** Non-increasing priority. */
  predicate Sorted(s: seq<PriorizedPath>)
  {
    forall i, j :: 0 <= i < j < |s| ==> s[i].priority >= s[j].priority
  }

  /** What a pass without a swap establishes: each neighbour pair in order. */
  predicate AdjacentSorted(s: seq<PriorizedPath>)
  {
    forall j :: 0 <= j && j + 1 < |s| ==> s[j].priority >= s[j + 1].priority
  }

  lemma {:induction false} AdjacentSortedFrom(s: seq<PriorizedPath>, i: nat, j: nat)
    requires AdjacentSorted(s) && i <= j < |s|
    ensures s[i].priority >= s[j].priority
    decreases j - i
  {
    if i < j {
      AdjacentSortedFrom(s, i + 1, j);
    }
  }

  lemma AdjacentSortedIsSorted(s: seq<PriorizedPath>)
    requires AdjacentSorted(s)
    ensures Sorted(s)
  {
    forall i, j | 0 <= i < j < |s|
      ensures s[i].priority >= s[j].priority
    {
      AdjacentSortedFrom(s, i, j);
    }
  }

  /** `perm` maps each position of a sequence of length `n` to a distinct
      position of another. */
  ghost predicate IsPermutationMap(perm: seq<nat>, n: nat)
  {
    |perm| == n
    && (forall k :: 0 <= k < n ==> perm[k] < n)
    && (forall k, l :: 0 <= k < l < n ==> perm[k] != perm[l])
  }

  /** `after` is `before` rearranged by `perm`, and entries of equal
      priority appear in `after` in the order they had in `before`. */
  ghost predicate StableWitness(before: seq<PriorizedPath>, after: seq<PriorizedPath>, perm: seq<nat>)
  {
    |after| == |before|
    && IsPermutationMap(perm, |before|)
    && (forall k :: 0 <= k < |after| ==> after[k] == before[perm[k]])
    && (forall k, l :: 0 <= k < l < |after| && after[k].priority == after[l].priority ==> perm[k] < perm[l])
  }

  ghost predicate StablePermutation(before: seq<PriorizedPath>, after: seq<PriorizedPath>)
  {
    exists perm :: StableWitness(before, after, perm)
  }

  /** `std::iter_swap` of the neighbours at `i` and `i + 1`. */
  function Swap<T>(s: seq<T>, i: nat): (r: seq<T>)
    requires i + 1 < |s|
    ensures |r| == |s|
    ensures r[i] == s[i + 1] && r[i + 1] == s[i]
    ensures forall k :: 0 <= k < |s| && k != i && k != i + 1 ==> r[k] == s[k]
  {
    s[i := s[i + 1]][i + 1 := s[i]]
  }

  /** Swapping a neighbour pair of strictly increasing priority keeps the
      rearrangement stable. */
  lemma SwapKeepsStable(before: seq<PriorizedPath>, s: seq<PriorizedPath>, perm: seq<nat>, i: nat)
    requires StableWitness(before, s, perm)
    requires i + 1 < |s| && s[i].priority < s[i + 1].priority
    ensures StableWitness(before, Swap(s, i), Swap(perm, i))
  {
    var s', perm' := Swap(s, i), Swap(perm, i);
    forall k, l | 0 <= k < l < |s'| && s'[k].priority == s'[l].priority
      ensures perm'[k] < perm'[l]
    {
      var k0 := if k == i then i + 1 else if k == i + 1 then i else k;
      var l0 := if l == i then i + 1 else if l == i + 1 then i else l;
      assert s'[k] == s[k0] && s'[l] == s[l0] && perm'[k] == perm[k0] && perm'[l] == perm[l0];
      assert k0 < l0;
    }
  }

  /** The number of entries of `t` that have a higher priority than `x`. */
  function CountAbove(x: PriorizedPath, t: seq<PriorizedPath>): (n: nat)
    ensures n <= |t|
  {
    if t == [] then 0 else (if x.priority < t[0].priority then 1 else 0) + CountAbove(x, t[1..])
  }

  /** The number of pairs that are out of order (a lower priority before a higher one). */
  function Inversions(s: seq<PriorizedPath>): (n: nat)
  {
    if s == [] then 0 else CountAbove(s[0], s[1..]) + Inversions(s[1..])
  }

  lemma {:induction false} CountAboveSwap(x: PriorizedPath, t: seq<PriorizedPath>, i: nat)
    requires i + 1 < |t|
    ensures CountAbove(x, Swap(t, i)) == CountAbove(x, t)
  {
    var t' := Swap(t, i);
    if i == 0 {
      assert t'[1..][1..] == t[1..][1..];
      assert t'[0] == t[1..][0] && t'[1..][0] == t[0];
    } else {
      assert t'[1..] == Swap(t[1..], i - 1);
      CountAboveSwap(x, t[1..], i - 1);
    }
  }

  /** Swapping an out-of-order neighbour pair removes exactly one inversion. */
  lemma {:induction false} InversionsSwap(s: seq<PriorizedPath>, i: nat)
    requires i + 1 < |s| && s[i].priority < s[i + 1].priority
    ensures Inversions(Swap(s, i)) == Inversions(s) - 1
  {
    var s' := Swap(s, i);
    if i == 0 {
      var r := s[2..];
      assert s[1..] == [s[1]] + r && s'[1..] == [s[0]] + r;
      assert CountAbove(s[0], s[1..]) == 1 + CountAbove(s[0], r) by {
        assert s[1..][1..] == r;
      }
      assert CountAbove(s[1], s'[1..]) == CountAbove(s[1], r) by {
        assert s'[1..][1..] == r;
      }
      assert Inversions(s[1..]) == CountAbove(s[1], r) + Inversions(r) by {
        assert s[1..][1..] == r;
      }
      assert Inversions(s'[1..]) == CountAbove(s[0], r) + Inversions(r) by {
        assert s'[1..][1..] == r;
      }
    } else {
      assert s'[1..] == Swap(s[1..], i - 1);
      CountAboveSwap(s[0], s[1..], i - 1);
      InversionsSwap(s[1..], i - 1);
    }
  }

  /** An adjacent swap does not change the multiset of entries. */
  lemma SwapKeepsMultiset(s: seq<PriorizedPath>, i: nat)
    requires i + 1 < |s|
    ensures multiset(Swap(s, i)) == multiset(s)
  {
    var s' := Swap(s, i);
    assert s == s[..i] + [s[i], s[i + 1]] + s[i + 2..];
    assert s' == s[..i] + [s[i + 1], s[i]] + s[i + 2..];
  }

  // ---------------------------------------------------------------------

  /** The static `Path::basePaths` vector. */
  class BasePathList {
    var basePaths: array<PriorizedPath>

    constructor ()
      ensures fresh(basePaths) && basePaths.Length == 0
    {
      basePaths := new PriorizedPath[0];
    }

    /** Bubble sort into non-increasing priority: passes over the list swap
        each neighbour pair whose first entry has the strictly lower priority,
        until a pass makes no swap. */
    method OrderPriorizedPaths()
      modifies basePaths
      ensures Sorted(basePaths[..])
      ensures multiset(basePaths[..]) == multiset(old(basePaths[..]))
      ensures StablePermutation(old(basePaths[..]), basePaths[..])
    {
      ghost var orig := basePaths[..];
      ghost var perm: seq<nat> := seq(basePaths.Length, k requires 0 <= k => k);
      var noChange := false;
      while !noChange
        invariant multiset(basePaths[..]) == multiset(orig)
        invariant StableWitness(orig, basePaths[..], perm)
        invariant noChange ==> AdjacentSorted(basePaths[..])
        decreases Inversions(basePaths[..]) + (if noChange then 0 else 1)
      {
        noChange, perm := SweepOnce(orig, perm);
      }
      AdjacentSortedIsSorted(basePaths[..]);
    }

    /** One pass of the `for` loop of orderPriorizedPaths. `noChange` tells
        whether it swapped nothing; every swap removes an inversion. */
    method SweepOnce(ghost orig: seq<PriorizedPath>, ghost perm0: seq<nat>) returns (noChange: bool, ghost perm: seq<nat>)
      requires multiset(basePaths[..]) == multiset(orig)
      requires StableWitness(orig, basePaths[..], perm0)
      modifies basePaths
      ensures multiset(basePaths[..]) == multiset(orig)
      ensures StableWitness(orig, basePaths[..], perm)
      ensures noChange ==> basePaths[..] == old(basePaths[..]) && AdjacentSorted(basePaths[..])
      ensures !noChange ==> Inversions(basePaths[..]) < Inversions(old(basePaths[..]))
    {
      var a := basePaths;
      var n := a.Length;
      ghost var start := a[..];
      perm := perm0;
      noChange := true;
      var i := 0;
      while i < n
        invariant 0 <= i <= n
        invariant multiset(a[..]) == multiset(orig)
        invariant StableWitness(orig, a[..], perm)
        invariant noChange ==> a[..] == start
        invariant noChange ==> forall j :: 0 <= j < i && j + 1 < n ==> a[j].priority >= a[j + 1].priority
        invariant Inversions(a[..]) <= Inversions(start)
        invariant !noChange ==> Inversions(a[..]) < Inversions(start)
      {
        if i != n - 1 && a[i].priority < a[i + 1].priority {
          ghost var s := a[..];
          a[i], a[i + 1] := a[i + 1], a[i];
          assert a[..] == Swap(s, i);
          InversionsSwap(s, i);
          SwapKeepsMultiset(s, i);
          SwapKeepsStable(orig, s, perm, i);
          perm := Swap(perm, i);
          noChange := false;
        }
        i := i + 1;
      }
    }

    /** Appends a base path and restores the order. */
    method AddPath(path: PriorizedPath)
      modifies this
      ensures fresh(basePaths)
      ensures basePaths.Length == old(basePaths.Length) + 1
      ensures Sorted(basePaths[..])
      ensures multiset(basePaths[..]) == multiset(old(basePaths[..])) + multiset{path}
      ensures path in basePaths[..]
      ensures StablePermutation(old(basePaths[..]) + [path], basePaths[..])
    {
      var n := basePaths.Length;
      var grown := new PriorizedPath[n + 1];
      forall k | 0 <= k < n {
        grown[k] := basePaths[k];
      }
      grown[n] := path;
      assert grown[..] == old(basePaths[..]) + [path];
      basePaths := grown;
      OrderPriorizedPaths();
      assert path in multiset(basePaths[..]);
    }
  }
}
