/**
 * Loading the project list for the homepage.
 *
 * Opening and reading the project file and parsing it as JSON are outside
 * the model: the file's fate is a FileRead value and the JSON parser is a
 * function parameter that yields the parsed map's entries in iteration order,
 * or nothing when the text is malformed.  What is modelled is what the
 * loader does with them: push every value onto a vector, sort the vector in
 * place by descending rank with a stable sort, and reverse it in place.
 */
module ProjectStore {
  import opened Outcomes
  import opened Projects

  /** What became of the attempt to read the project file. */
  datatype FileRead = OpenFailed | ReadFailed | Read(text: string)

  /** Why no project list was produced; the loader aborts on each of these. */
  datatype LoadError = CouldNotOpen | CouldNotRead | CouldNotConvert

  /** The project list the loader produces, or the reason it produces none. */
  function LoadProjects(file: FileRead, parse: string -> Option<seq<Entry>>): (r: Result<seq<Project>, LoadError>)
    ensures file.OpenFailed? ==> r == Failure(CouldNotOpen)
    ensures file.ReadFailed? ==> r == Failure(CouldNotRead)
    ensures file.Read? && parse(file.text).None? ==> r == Failure(CouldNotConvert)
    ensures r.Success? <==> file.Read? && parse(file.text).Some?
    ensures r.Success? ==>
      var collected := Values(parse(file.text).value);
      && |r.value| == |collected|
      && multiset(r.value) == multiset(collected)
      && ListedInHomepageOrder(collected, r.value)
  {
    match file
    case OpenFailed => Failure(CouldNotOpen)
    case ReadFailed => Failure(CouldNotRead)
    case Read(text) =>
      match parse(text)
      case None => Failure(CouldNotConvert)
      case Some(entries) =>
        var collected := Values(entries);
        ProjectOrderIsPermutation(collected);
        ProjectOrderCharacterized(collected, ProjectOrder(collected));
        Success(ProjectOrder(collected))
  }

  /** For a file that parses to a map, the list holds every value of the map
      exactly as often as it is collected, and only values of the map; it is
      the one sequence in homepage order. */
  lemma LoadedListFromMap(text: string, parse: string -> Option<seq<Entry>>, m: map<string, Project>)
    requires parse(text).Some? && IsIterationOf(parse(text).value, m)
    ensures LoadProjects(Read(text), parse).Success?
    ensures var listed := LoadProjects(Read(text), parse).value;
      && |listed| == |m|
      && (forall p :: p in listed <==> p in m.Values)
      && (forall t :: ListedInHomepageOrder(Values(parse(text).value), t) <==> t == listed)
  {
    var collected := Values(parse(text).value);
    var listed := LoadProjects(Read(text), parse).value;
    MapValuesCollected(parse(text).value, m);
    forall p ensures p in listed <==> p in collected {
      assert p in listed <==> p in multiset(listed);
      assert p in collected <==> p in multiset(collected);
    }
    forall t ensures ListedInHomepageOrder(collected, t) <==> t == listed {
      ProjectOrderCharacterized(collected, t);
    }
  }

  /** Inserting `x` into `t` lands it at the position `j` behind which every
      project outranks it or ties with it, and before which none does. */
  lemma {:induction false} InsertAt(t: seq<Project>, x: Project, j: nat)
    requires j <= |t| && (j == 0 || t[j - 1].rank >= x.rank)
    requires forall m :: j <= m < |t| ==> t[m].rank < x.rank
    ensures InsertByRankDesc(t, x) == t[..j] + [x] + t[j..]
    decreases |t|
  {
    if j == |t| {
      assert t[..j] == t && t[j..] == [];
    } else {
      var init, last := t[..|t| - 1], t[|t| - 1];
      InsertBehindLast(t, x);
      InsertAt(init, x, j);
      calc {
        InsertByRankDesc(t, x);
        InsertByRankDesc(init, x) + [last];
        init[..j] + [x] + init[j..] + [last];
        { assert init[..j] == t[..j]; assert t[j..] == init[j..] + [last]; }
        t[..j] + [x] + t[j..];
      }
    }
  }

  /** A sequence that holds `t[..j]`, then `x`, then `t[j..]` element by element is their concatenation. */
  lemma PlacedAt(b: seq<Project>, t: seq<Project>, x: Project, j: nat)
    requires |b| == |t| + 1 && j <= |t|
    requires forall m :: 0 <= m < j ==> b[m] == t[m]
    requires b[j] == x
    requires forall m :: j < m < |b| ==> b[m] == t[m - 1]
    ensures b == t[..j] + [x] + t[j..]
  {
    var r := t[..j] + [x] + t[j..];
    forall m | 0 <= m < |b| ensures b[m] == r[m] {
      if m < j {
        assert r[m] == t[m];
      } else if m > j {
        assert r[m] == t[m - 1];
      }
    }
  }

  /** A sequence holding the elements of `s` back to front is its reversal. */
  lemma ReversedPointwise(b: seq<Project>, s: seq<Project>)
    requires |b| == |s|
    requires forall m :: 0 <= m < |s| ==> b[m] == s[|s| - 1 - m]
    ensures b == Reversed(s)
  {
  }

  lemma SortStep(s: seq<Project>, i: nat)
    requires i < |s|
    ensures StableSortDesc(s[..i + 1]) == InsertByRankDesc(StableSortDesc(s[..i]), s[i])
  {
    assert s[..i + 1][..i] == s[..i];
  }

  /** Pushes the value of every entry, in iteration order, onto a new vector. */
  method CollectValues(entries: seq<Entry>) returns (a: array<Project>)
    ensures fresh(a)
    ensures a[..] == Values(entries)
  {
    a := new Project[|entries|];
    var i := 0;
    while i < |entries|
      invariant 0 <= i <= |entries|
      invariant forall j :: 0 <= j < i ==> a[j] == entries[j].1
    {
      a[i] := entries[i].1;
      i := i + 1;
    }
  }

  /** Moves a[i] left past every project of lower rank in the sorted prefix a[..i]. */
  method InsertIntoSorted(a: array<Project>, i: nat)
    requires i < a.Length
    modifies a
    ensures a[..i + 1] == InsertByRankDesc(old(a[..i]), old(a[i]))
    ensures forall m :: i < m < a.Length ==> a[m] == old(a[m])
  {
    ghost var t := a[..i];
    var x := a[i];
    var j := i;
    while j > 0 && a[j - 1].rank < x.rank
      invariant 0 <= j <= i
      invariant forall m :: 0 <= m < j ==> a[m] == t[m]
      invariant forall m :: j < m <= i ==> a[m] == t[m - 1]
      invariant forall m :: i < m < a.Length ==> a[m] == old(a[m])
      invariant forall m :: j <= m < i ==> t[m].rank < x.rank
    {
      a[j] := a[j - 1];
      j := j - 1;
    }
    a[j] := x;
    InsertAt(t, x, j);
    PlacedAt(a[..i + 1], t, x, j);
  }

  /** Stable in-place sort by descending rank. */
  method SortByRankDesc(a: array<Project>)
    modifies a
    ensures a[..] == StableSortDesc(old(a[..]))
  {
    ghost var s := a[..];
    var i := 0;
    while i < a.Length
      invariant 0 <= i <= a.Length
      invariant a[..i] == StableSortDesc(s[..i])
      invariant forall m :: i <= m < a.Length ==> a[m] == s[m]
    {
      SortStep(s, i);
      InsertIntoSorted(a, i);
      i := i + 1;
    }
    assert s[..a.Length] == s;
    assert a[..a.Length] == a[..];
  }

  /** In-place reversal of the whole vector. */
  method ReverseInPlace(a: array<Project>)
    modifies a
    ensures a[..] == Reversed(old(a[..]))
  {
    ghost var s := a[..];
    var n := a.Length;
    var lo, hi := 0, a.Length - 1;
    while lo < hi
      invariant 0 <= lo <= hi + 1 && hi == n - 1 - lo
      invariant forall m :: 0 <= m < lo ==> a[m] == s[n - 1 - m]
      invariant forall m :: hi < m < n ==> a[m] == s[n - 1 - m]
      invariant forall m :: lo <= m <= hi ==> a[m] == s[m]
    {
      a[lo], a[hi] := a[hi], a[lo];
      lo, hi := lo + 1, hi - 1;
    }
    ReversedPointwise(a[..], s);
  }

  /** The project list for the homepage: the parsed map's values, sorted by
      descending rank and then reversed; no list at all when the file cannot
      be opened, read or parsed. */
  method GetProjects(file: FileRead, parse: string -> Option<seq<Entry>>) returns (r: Result<seq<Project>, LoadError>)
    ensures r == LoadProjects(file, parse)
  {
    match file
    case OpenFailed =>
      return Failure(CouldNotOpen);
    case ReadFailed =>
      return Failure(CouldNotRead);
    case Read(text) =>
      var parsed := parse(text);
      match parsed
      case None =>
        return Failure(CouldNotConvert);
      case Some(entries) =>
        var projects := CollectValues(entries);
        SortByRankDesc(projects);
        ReverseInPlace(projects);
        return Success(projects[..]);
  }
}
