/** A collection of tags: indexing by name and by type, the newest of a series, subsets and filters. */
module TagCollections {
  import opened Wrappers
  import opened TagOrder

  // ----- filter policies

  datatype ImageFilter = ImageFilter(
    number: Option<nat>,
    age: Option<nat>,
    cutoffBuild: Option<nat>,
    cutoffDate: Option<int>,
    cutoffVersion: Option<Version>)

  datatype ImageFilterPolicy = ImageFilterPolicy(
    release: ImageFilter,
    weekly: ImageFilter,
    daily: ImageFilter,
    releaseCandidate: ImageFilter,
    experimental: ImageFilter)
  {
    function ForImageType(t: ImageType): Option<ImageFilter> {
      match t
      case Alias => None
      case Release => Some(release)
      case Weekly => Some(weekly)
      case Daily => Some(daily)
      case Candidate => Some(releaseCandidate)
      case Experimental => Some(experimental)
      case Unknown => None
    }
  }

  /** The later of the two date cutoffs; an age of zero is no age. */
  function DateCutoff(f: ImageFilter, basis: int): Option<int> {
    var byAge := if f.age.Some? && f.age.value != 0 then Some(basis - f.age.value) else None;
    if f.cutoffDate.Some? && (byAge.None? || byAge.value < f.cutoffDate.value) then f.cutoffDate else byAge
  }

  /** Whether a tag survives the cutoffs. Build number zero counts as no build number. */
  predicate Passes(t: Tag, f: ImageFilter, basis: int) {
    && !(t.build.Some? && t.build.value != 0 && f.cutoffBuild.Some? && f.cutoffBuild.value != 0
         && t.build.value < f.cutoffBuild.value)
    && !(t.date.Some? && DateCutoff(f, basis).Some? && t.date.value < DateCutoff(f, basis).value)
    && !(t.semantic && t.version.Some? && f.cutoffVersion.Some?
         && CompareVersion(t.version.value, f.cutoffVersion.value) < 0)
  }

  /** Zero means no limit. */
  predicate Limited(f: ImageFilter) {
    f.number.Some? && f.number.value != 0
  }

  function Passing(tags: seq<Tag>, f: ImageFilter, basis: int): seq<Tag> {
    if tags == [] then []
    else if Passes(tags[0], f, basis) then [tags[0]] + Passing(tags[1..], f, basis)
    else Passing(tags[1..], f, basis)
  }

  /** What a policy keeps of a series: its first `number` passing tags. */
  function Kept(tags: seq<Tag>, f: ImageFilter, basis: int): seq<Tag> {
    var passing := Passing(tags, f, basis);
    if Limited(f) && f.number.value < |passing| then passing[..f.number.value] else passing
  }

  /** Not for one particular architecture. */
  predicate IsGeneric(t: Tag) {
    t.architecture.GetOr("") == ""
  }

  function Generic(tags: seq<Tag>): seq<Tag> {
    if tags == [] then []
    else if IsGeneric(tags[0]) then [tags[0]] + Generic(tags[1..])
    else Generic(tags[1..])
  }

  function Candidates(tags: seq<Tag>, removeArch: bool): seq<Tag> {
    if removeArch then Generic(tags) else tags
  }

  function NamesOf(tags: seq<Tag>): set<string> {
    set t | t in tags :: t.name
  }

  function Without(tags: seq<Tag>, names: set<string>): seq<Tag> {
    if tags == [] then []
    else if tags[0].name in names then Without(tags[1..], names)
    else [tags[0]] + Without(tags[1..], names)
  }

  /** What one series contributes to `filter`. */
  function FilteredSeries(tags: seq<Tag>, f: Option<ImageFilter>, basis: int, invert: bool, removeArch: bool): seq<Tag> {
    var candidates := Candidates(tags, removeArch);
    if f.None? then (if invert then [] else candidates)
    else
      var kept := Kept(candidates, f.value, basis);
      if invert then Without(candidates, NamesOf(kept)) else kept
  }

  // ----- what the filter promises

  lemma NameTells(tags: seq<Tag>, kept: seq<Tag>, t: Tag)
    requires Distinct(tags) && t in tags && forall k | k in kept :: k in tags
    ensures t.name in NamesOf(kept) <==> t in kept
  {
    if t.name in NamesOf(kept) {
      var k :| k in kept && k.name == t.name;
      var i :| 0 <= i < |tags| && tags[i] == t;
      var j :| 0 <= j < |tags| && tags[j] == k;
    }
  }

  /** What is kept and what the inverted filter yields: every candidate, exactly once. */
  lemma WithoutPartitions(tags: seq<Tag>, kept: seq<Tag>, rest: seq<Tag>)
    requires Distinct(tags) && multiset(kept) + multiset(rest) == multiset(tags)
    ensures multiset(Without(tags, NamesOf(kept))) == multiset(rest)
  {
    WithoutCounts(tags, NamesOf(kept));
    forall k | k in kept ensures k in tags {
      assert k in multiset(kept) + multiset(rest);
    }
    forall t ensures multiset(Without(tags, NamesOf(kept)))[t] == multiset(rest)[t] {
      DistinctCounts(tags, t);
      assert multiset(kept)[t] + multiset(rest)[t] == multiset(tags)[t];
      if t in tags {
        NameTells(tags, kept, t);
      }
    }
  }

  predicate Distinct(tags: seq<Tag>) {
    forall i, j | 0 <= i < j < |tags| :: tags[i].name != tags[j].name
  }

  lemma {:induction false} WithoutCounts(tags: seq<Tag>, names: set<string>)
    ensures forall t :: multiset(Without(tags, names))[t] == if t.name in names then 0 else multiset(tags)[t]
  {
    if tags != [] {
      WithoutCounts(tags[1..], names);
      assert tags == [tags[0]] + tags[1..];
    }
  }

  lemma {:induction false} DistinctCounts(tags: seq<Tag>, t: Tag)
    requires Distinct(tags)
    ensures multiset(tags)[t] == if t in tags then 1 else 0
  {
    if tags != [] {
      DistinctCounts(tags[1..], t);
      assert tags == [tags[0]] + tags[1..];
    }
  }

  function Failing(tags: seq<Tag>, f: ImageFilter, basis: int): seq<Tag> {
    if tags == [] then []
    else if Passes(tags[0], f, basis) then Failing(tags[1..], f, basis)
    else [tags[0]] + Failing(tags[1..], f, basis)
  }

  lemma {:induction false} PassingPartitions(tags: seq<Tag>, f: ImageFilter, basis: int)
    ensures multiset(Passing(tags, f, basis)) + multiset(Failing(tags, f, basis)) == multiset(tags)
  {
    if tags != [] {
      PassingPartitions(tags[1..], f, basis);
      assert tags == [tags[0]] + tags[1..];
    }
  }

  /** The tags of a series a policy prunes, in the terms of the policy alone. */
  function Pruned(tags: seq<Tag>, f: ImageFilter, basis: int): seq<Tag> {
    Failing(tags, f, basis) + Passing(tags, f, basis)[|Kept(tags, f, basis)|..]
  }

  lemma SeriesFilterPartitions(tags: seq<Tag>, f: ImageFilter, basis: int, removeArch: bool)
    requires Distinct(tags)
    ensures var kept := FilteredSeries(tags, Some(f), basis, false, removeArch);
            var pruned := FilteredSeries(tags, Some(f), basis, true, removeArch);
            && multiset(kept) + multiset(pruned) == multiset(Candidates(tags, removeArch))
            && multiset(pruned) == multiset(Pruned(Candidates(tags, removeArch), f, basis))
  {
    var candidates := Candidates(tags, removeArch);
    GenericDistinct(tags);
    PassingPartitions(candidates, f, basis);
    var kept, passing := Kept(candidates, f, basis), Passing(candidates, f, basis);
    assert passing == kept + passing[|kept|..];
    WithoutPartitions(candidates, kept, Pruned(candidates, f, basis));
  }

  lemma {:induction false} GenericDistinct(tags: seq<Tag>)
    requires Distinct(tags)
    ensures Distinct(Generic(tags)) && forall t | t in Generic(tags) :: t in tags
  {
    if tags != [] {
      GenericDistinct(tags[1..]);
      forall i | 0 <= i < |Generic(tags[1..])| ensures Generic(tags[1..])[i].name != tags[0].name {
        assert Generic(tags[1..])[i] in tags[1..];
      }
    }
  }

  lemma {:induction false} PassingIsOrdered(tags: seq<Tag>, f: ImageFilter, basis: int)
    requires Descending(tags, Itself)
    ensures Descending(Passing(tags, f, basis), Itself)
    ensures forall t | t in Passing(tags, f, basis) :: t in tags && Passes(t, f, basis)
  {
    if tags != [] {
      PassingIsOrdered(tags[1..], f, basis);
      var rest := Passing(tags[1..], f, basis);
      forall i | 0 <= i < |rest| ensures Compare(rest[i], tags[0]) <= 0 {
        assert rest[i] in tags[1..];
      }
    }
  }

  lemma {:induction false} GenericIsOrdered(tags: seq<Tag>)
    requires Descending(tags, Itself)
    ensures Descending(Generic(tags), Itself)
    ensures forall t | t in Generic(tags) :: t in tags
  {
    if tags != [] {
      GenericIsOrdered(tags[1..]);
      var rest := Generic(tags[1..]);
      forall i | 0 <= i < |rest| ensures Compare(rest[i], tags[0]) <= 0 {
        assert rest[i] in tags[1..];
      }
    }
  }

  lemma {:induction false} PassingContains(tags: seq<Tag>, f: ImageFilter, basis: int, t: Tag)
    ensures t in tags && Passes(t, f, basis) ==> t in Passing(tags, f, basis)
  {
    if tags != [] {
      PassingContains(tags[1..], f, basis, t);
      assert tags == [tags[0]] + tags[1..];
    }
  }

  lemma KeptAreTheNewest(tags: seq<Tag>, f: ImageFilter, basis: int, kept: Tag, pruned: Tag)
    requires Descending(tags, Itself)
    requires kept in Kept(tags, f, basis)
    requires pruned in tags && Passes(pruned, f, basis) && pruned !in Kept(tags, f, basis)
    ensures Compare(pruned, kept) <= 0
    ensures Passes(kept, f, basis) && kept in tags
    ensures Limited(f) && |Kept(tags, f, basis)| == f.number.value
  {
    PassingIsOrdered(tags, f, basis);
    PassingContains(tags, f, basis, pruned);
    var passing := Passing(tags, f, basis);
    var i :| 0 <= i < |Kept(tags, f, basis)| && Kept(tags, f, basis)[i] == kept;
    assert passing[i] == kept;
    var j :| 0 <= j < |passing| && passing[j] == pruned;
    assert j >= |Kept(tags, f, basis)|;
  }

  lemma {:induction false} PassingOfPassing(tags: seq<Tag>, f: ImageFilter, basis: int)
    requires forall i | 0 <= i < |tags| :: Passes(tags[i], f, basis)
    ensures Passing(tags, f, basis) == tags
  {
    if tags != [] {
      PassingOfPassing(tags[1..], f, basis);
      assert tags == [tags[0]] + tags[1..];
    }
  }

  lemma {:induction false} PassingPasses(tags: seq<Tag>, f: ImageFilter, basis: int)
    ensures forall i | 0 <= i < |Passing(tags, f, basis)| :: Passes(Passing(tags, f, basis)[i], f, basis)
  {
    if tags != [] {
      PassingPasses(tags[1..], f, basis);
    }
  }

  lemma {:induction false} GenericOfGeneric(tags: seq<Tag>)
    ensures Generic(Generic(tags)) == Generic(tags)
    ensures forall i | 0 <= i < |Generic(tags)| :: IsGeneric(Generic(tags)[i])
  {
    if tags != [] {
      GenericOfGeneric(tags[1..]);
      assert ([tags[0]] + Generic(tags[1..]))[1..] == Generic(tags[1..]);
    }
  }

  lemma {:induction false} AllGeneric(tags: seq<Tag>)
    requires forall i | 0 <= i < |tags| :: IsGeneric(tags[i])
    ensures Generic(tags) == tags
  {
    if tags != [] {
      AllGeneric(tags[1..]);
      assert tags == [tags[0]] + tags[1..];
    }
  }

  /** Filtering what survived keeps all of it. */
  lemma FilterIsIdempotent(tags: seq<Tag>, f: Option<ImageFilter>, basis: int, removeArch: bool)
    ensures var kept := FilteredSeries(tags, f, basis, false, removeArch);
            FilteredSeries(kept, f, basis, false, removeArch) == kept
  {
    GenericOfGeneric(tags);
    if f.Some? {
      var candidates := Candidates(tags, removeArch);
      var kept := Kept(candidates, f.value, basis);
      PassingPasses(candidates, f.value, basis);
      PassingOfPassing(kept, f.value, basis);
      if removeArch {
        forall i | 0 <= i < |kept| ensures IsGeneric(kept[i]) {
          PassingFrom(candidates, f.value, basis);
          assert kept[i] == Passing(candidates, f.value, basis)[i];
          assert kept[i] in Passing(candidates, f.value, basis);
        }
        AllGeneric(kept);
      }
    }
  }

  lemma {:induction false} PassingFrom(tags: seq<Tag>, f: ImageFilter, basis: int)
    ensures forall t | t in Passing(tags, f, basis) :: t in tags
  {
    if tags != [] {
      PassingFrom(tags[1..], f, basis);
      assert tags == [tags[0]] + tags[1..];
    }
  }

  // ----- the collection

  function OfType(tags: seq<Tag>, t: ImageType): seq<Tag> {
    if tags == [] then []
    else if tags[0].imageType == t then [tags[0]] + OfType(tags[1..], t)
    else OfType(tags[1..], t)
  }

  /** The list a collection keeps for one type. */
  function Series(tags: seq<Tag>, t: ImageType): seq<Tag> {
    SortDescending(OfType(tags, t), Itself)
  }

  /** Later tags replace earlier ones of the same name. */
  function ByName(tags: seq<Tag>): map<string, Tag> {
    if tags == [] then map[] else ByName(tags[..|tags| - 1])[tags[|tags| - 1].name := tags[|tags| - 1]]
  }

  lemma {:induction false} OfTypeAppend(tags: seq<Tag>, tag: Tag, t: ImageType)
    ensures OfType(tags + [tag], t) == OfType(tags, t) + (if tag.imageType == t then [tag] else [])
  {
    if tags == [] {
      assert [] + [tag] == [tag] && [tag][1..] == [];
    } else {
      assert (tags + [tag])[1..] == tags[1..] + [tag];
      OfTypeAppend(tags[1..], tag, t);
    }
  }

  lemma {:induction false} OfTypeElements(tags: seq<Tag>, t: ImageType)
    ensures forall x :: x in OfType(tags, t) <==> x in tags && x.imageType == t
  {
    if tags != [] {
      OfTypeElements(tags[1..], t);
      assert tags == [tags[0]] + tags[1..];
    }
  }

  ghost predicate AllParsed(tags: seq<Tag>) {
    forall t | t in tags :: WellParsed(t)
  }

  lemma InSeriesOf(tags: seq<Tag>, t: ImageType)
    ensures forall x :: x in Series(tags, t) <==> x in tags && x.imageType == t
  {
    OfTypeElements(tags, t);
    forall x ensures x in Series(tags, t) <==> x in tags && x.imageType == t {
      InSorted(x, OfType(tags, t), Itself);
    }
  }

  lemma SeriesIsOneSeries(tags: seq<Tag>, t: ImageType)
    requires AllParsed(tags)
    ensures OneSeries(OfType(tags, t), Itself)
    ensures Descending(Series(tags, t), Itself)
    ensures forall x :: x in Series(tags, t) <==> x in tags && x.imageType == t
  {
    OfTypeElements(tags, t);
    SortSorts(OfType(tags, t), Itself);
    InSeriesOf(tags, t);
  }

  /** All the tags of a collection, series after series in menu order. */
  function AllSeries(tags: seq<Tag>, hideArch: bool, n: nat): seq<Tag>
    requires n <= |IMAGE_TYPES|
  {
    if n == 0 then []
    else AllSeries(tags, hideArch, n - 1) + Candidates(Series(tags, IMAGE_TYPES[n - 1]), hideArch)
  }

  /** What a policy leaves of a collection, series after series. */
  function Filtered(tags: seq<Tag>, policy: ImageFilterPolicy, basis: int, invert: bool, removeArch: bool, n: nat): seq<Tag>
    requires n <= |IMAGE_TYPES|
  {
    if n == 0 then []
    else
      var t := IMAGE_TYPES[n - 1];
      Filtered(tags, policy, basis, invert, removeArch, n - 1)
      + FilteredSeries(Series(tags, t), policy.ForImageType(t), basis, invert, removeArch)
  }

  lemma FilteredNext(tags: seq<Tag>, policy: ImageFilterPolicy, basis: int, invert: bool, removeArch: bool, n: nat)
    requires 0 < n <= |IMAGE_TYPES|
    ensures var t := IMAGE_TYPES[n - 1];
            Filtered(tags, policy, basis, invert, removeArch, n) ==
            Filtered(tags, policy, basis, invert, removeArch, n - 1)
            + FilteredSeries(Series(tags, t), policy.ForImageType(t), basis, invert, removeArch)
  {
  }

  lemma AllSeriesNext(tags: seq<Tag>, hideArch: bool, n: nat)
    requires 0 < n <= |IMAGE_TYPES|
    ensures AllSeries(tags, hideArch, n) == AllSeries(tags, hideArch, n - 1) + Candidates(Series(tags, IMAGE_TYPES[n - 1]), hideArch)
  {
  }

  /** The first `total` generic tags of a series. */
  function First(tags: seq<Tag>, total: nat, removeArch: bool): seq<Tag> {
    var candidates := Candidates(tags, removeArch);
    if total < |candidates| then candidates[..total] else candidates
  }

  function Named(tags: seq<Tag>, names: seq<string>): seq<Tag> {
    if names == [] then []
    else Named(tags, names[..|names| - 1])
         + (var name := names[|names| - 1]; if name in ByName(tags) then [ByName(tags)[name]] else [])
  }

  /** The tags `subset` puts in the new collection, in the order it adds them. */
  function Subset(tags: seq<Tag>, releases: nat, weeklies: nat, dailies: nat, included: seq<string>, removeArch: bool): seq<Tag> {
    First(Series(tags, Release), releases, removeArch)
    + First(Series(tags, Weekly), weeklies, removeArch)
    + First(Series(tags, Daily), dailies, removeArch)
    + Named(tags, included)
  }

  /** The tags of one type as a menu lists them. */
  function ListedBy(tags: seq<Tag>, t: ImageType, hideArch: bool): seq<Tag> {
    Candidates(Series(tags, t), hideArch)
  }

  /** They are tags of the collection and of the type, not for one architecture if these are hidden, newest first. */
  lemma ListedNewestFirst(tags: seq<Tag>, t: ImageType, hideArch: bool)
    ensures AllParsed(tags) ==> Descending(ListedBy(tags, t, hideArch), Itself)
    ensures forall x | x in ListedBy(tags, t, hideArch) :: x in tags && x.imageType == t && (hideArch ==> x.architecture.GetOr("") == "")
  {
    InSeriesOf(tags, t);
    GenericOfGeneric(Series(tags, t));
    GenericFrom(Series(tags, t));
    if AllParsed(tags) {
      SeriesIsOneSeries(tags, t);
      GenericIsOrdered(Series(tags, t));
    }
  }

  /** Aliases come first, then releases, weeklies, dailies, candidates, experimental and unknown tags. */
  lemma InMenuOrder(tags: seq<Tag>, hideArch: bool)
    ensures AllSeries(tags, hideArch, |IMAGE_TYPES|) ==
            ListedBy(tags, Alias, hideArch) + ListedBy(tags, Release, hideArch) + ListedBy(tags, Weekly, hideArch)
            + ListedBy(tags, Daily, hideArch) + ListedBy(tags, Candidate, hideArch) + ListedBy(tags, Experimental, hideArch)
            + ListedBy(tags, Unknown, hideArch)
  {
    hide *;
    NoneListed(tags, hideArch);
    TypeNames();
    TypeListed(tags, hideArch, 1, Alias);
    TypeListed(tags, hideArch, 2, Release);
    TypeListed(tags, hideArch, 3, Weekly);
    TypeListed(tags, hideArch, 4, Daily);
    TypeListed(tags, hideArch, 5, Candidate);
    TypeListed(tags, hideArch, 6, Experimental);
    TypeListed(tags, hideArch, 7, Unknown);
    assert [] + ListedBy(tags, Alias, hideArch) == ListedBy(tags, Alias, hideArch);
  }

  lemma NoneListed(tags: seq<Tag>, hideArch: bool)
    ensures AllSeries(tags, hideArch, 0) == []
  {
  }

  lemma TypeNames()
    ensures |IMAGE_TYPES| == 7
    ensures IMAGE_TYPES == [Alias, Release, Weekly, Daily, Candidate, Experimental, Unknown]
  {
  }

  lemma TypeListed(tags: seq<Tag>, hideArch: bool, n: nat, t: ImageType)
    requires 0 < n <= |IMAGE_TYPES| && IMAGE_TYPES[n - 1] == t
    ensures AllSeries(tags, hideArch, n) == AllSeries(tags, hideArch, n - 1) + ListedBy(tags, t, hideArch)
  {
    AllSeriesNext(tags, hideArch, n);
  }

  lemma {:induction false} OfTypeTags(tags: seq<Tag>, t: ImageType, x: Tag)
    ensures multiset(OfType(tags, t))[x] == if x.imageType == t then multiset(tags)[x] else 0
  {
    if tags != [] {
      OfTypeTags(tags[1..], t, x);
      assert tags == [tags[0]] + tags[1..];
    }
  }

  lemma {:induction false} GenericCounts(tags: seq<Tag>, x: Tag)
    ensures multiset(Generic(tags))[x] == if x.architecture.GetOr("") == "" then multiset(tags)[x] else 0
  {
    if tags != [] {
      GenericCounts(tags[1..], x);
      assert tags == [tags[0]] + tags[1..];
    }
  }

  lemma TypeCounts(tags: seq<Tag>, t: ImageType, hideArch: bool, x: Tag)
    ensures multiset(Candidates(Series(tags, t), hideArch))[x] ==
            if x.imageType == t && (hideArch ==> x.architecture.GetOr("") == "") then multiset(tags)[x] else 0
  {
    GenericCounts(Series(tags, t), x);
    SortKeepsElements(OfType(tags, t), Itself);
    OfTypeTags(tags, t, x);
  }

  lemma {:induction false} ListedUpTo(tags: seq<Tag>, hideArch: bool, x: Tag, m: nat, n: nat)
    requires m < |IMAGE_TYPES| && IMAGE_TYPES[m] == x.imageType && n <= |IMAGE_TYPES|
    ensures multiset(AllSeries(tags, hideArch, n))[x] ==
            if m < n && (hideArch ==> x.architecture.GetOr("") == "") then multiset(tags)[x] else 0
  {
    if n > 0 {
      hide *;
      AllSeriesNext(tags, hideArch, n);
      ListedUpTo(tags, hideArch, x, m, n - 1);
      TypeCounts(tags, IMAGE_TYPES[n - 1], hideArch, x);
      TypesApart(m, n - 1);
    }
  }

  /** Every tag is listed as often as it was added, unless it is hidden for its architecture. */
  lemma EveryTagListed(tags: seq<Tag>, hideArch: bool, x: Tag)
    ensures multiset(AllSeries(tags, hideArch, |IMAGE_TYPES|))[x] ==
            if hideArch && x.architecture.GetOr("") != "" then 0 else multiset(tags)[x]
  {
    var m := PlaceOf(x.imageType);
    ListedUpTo(tags, hideArch, x, m, |IMAGE_TYPES|);
  }

  // ----- loops over one series

  lemma {:induction false} GenericAppend(tags: seq<Tag>, tag: Tag)
    ensures Generic(tags + [tag]) == Generic(tags) + (if IsGeneric(tag) then [tag] else [])
  {
    if tags == [] {
      assert [] + [tag] == [tag] && [tag][1..] == [];
    } else {
      assert (tags + [tag])[1..] == tags[1..] + [tag];
      GenericAppend(tags[1..], tag);
    }
  }

  lemma {:induction false} PassingAppend(tags: seq<Tag>, tag: Tag, f: ImageFilter, basis: int)
    ensures Passing(tags + [tag], f, basis) == Passing(tags, f, basis) + (if Passes(tag, f, basis) then [tag] else [])
  {
    if tags == [] {
      assert [] + [tag] == [tag] && [tag][1..] == [];
    } else {
      assert (tags + [tag])[1..] == tags[1..] + [tag];
      PassingAppend(tags[1..], tag, f, basis);
    }
  }

  lemma {:induction false} PassingPrefix(tags: seq<Tag>, i: nat, f: ImageFilter, basis: int)
    requires i <= |tags|
    ensures Passing(tags[..i], f, basis) <= Passing(tags, f, basis)
    decreases |tags| - i
  {
    if i == |tags| {
      assert tags[..i] == tags;
    } else {
      PassingPrefix(tags, i + 1, f, basis);
      assert tags[..i + 1] == tags[..i] + [tags[i]];
      PassingAppend(tags[..i], tags[i], f, basis);
    }
  }

  method ChooseCandidates(tags: seq<Tag>, removeArch: bool) returns (chosen: seq<Tag>)
    ensures chosen == Candidates(tags, removeArch)
  {
    chosen := [];
    for i := 0 to |tags|
      invariant chosen == Candidates(tags[..i], removeArch)
    {
      assert tags[..i + 1] == tags[..i] + [tags[i]];
      GenericAppend(tags[..i], tags[i]);
      if !removeArch || IsGeneric(tags[i]) {
        chosen := chosen + [tags[i]];
      }
    }
    assert tags[..|tags|] == tags;
  }

  /** The closure `_build_filter` returns: it counts what it yields and stops at the limit. */
  method TagFilter(tags: seq<Tag>, f: ImageFilter, basis: int) returns (kept: seq<Tag>)
    ensures kept == Kept(tags, f, basis)
  {
    kept := [];
    var count := 0;
    for i := 0 to |tags|
      invariant count == |kept| && kept == Passing(tags[..i], f, basis)
      invariant Limited(f) ==> count < f.number.value
    {
      assert tags[..i + 1] == tags[..i] + [tags[i]];
      PassingAppend(tags[..i], tags[i], f, basis);
      if Passes(tags[i], f, basis) {
        kept := kept + [tags[i]];
        count := count + 1;
        if Limited(f) && count >= f.number.value {
          PassingPrefix(tags, i + 1, f, basis);
          return;
        }
      }
    }
    assert tags[..|tags|] == tags;
  }

  /** `_first_tags` */
  method FirstTags(tags: seq<Tag>, total: nat, removeArch: bool) returns (chosen: seq<Tag>)
    ensures chosen == First(tags, total, removeArch)
  {
    chosen := [];
    if total == 0 {
      return;
    }
    var count := 0;
    for i := 0 to |tags|
      invariant count == |chosen| < total && chosen == Candidates(tags[..i], removeArch)
    {
      assert tags[..i + 1] == tags[..i] + [tags[i]];
      GenericAppend(tags[..i], tags[i]);
      if !removeArch || IsGeneric(tags[i]) {
        chosen := chosen + [tags[i]];
        count := count + 1;
        if count >= total {
          CandidatesPrefix(tags, i + 1, removeArch);
          return;
        }
      }
    }
    assert tags[..|tags|] == tags;
  }

  lemma {:induction false} CandidatesPrefix(tags: seq<Tag>, i: nat, removeArch: bool)
    requires i <= |tags|
    ensures Candidates(tags[..i], removeArch) <= Candidates(tags, removeArch)
    decreases |tags| - i
  {
    if i == |tags| {
      assert tags[..i] == tags;
    } else {
      CandidatesPrefix(tags, i + 1, removeArch);
      assert tags[..i + 1] == tags[..i] + [tags[i]];
      GenericAppend(tags[..i], tags[i]);
    }
  }

  // ----- the collection

  function ListFor(lists: map<ImageType, seq<Tag>>, t: ImageType): seq<Tag> {
    if t in lists then lists[t] else []
  }

  method GroupByType(tags: seq<Tag>) returns (names: map<string, Tag>, lists: map<ImageType, seq<Tag>>)
    ensures names == ByName(tags)
    ensures forall t :: ListFor(lists, t) == OfType(tags, t)
  {
    names, lists := map[], map[];
    for i := 0 to |tags|
      invariant names == ByName(tags[..i])
      invariant forall t :: ListFor(lists, t) == OfType(tags[..i], t)
    {
      var tag := tags[i];
      ghost var before := lists;
      assert tags[..i + 1] == tags[..i] + [tag];
      assert tags[..i + 1][..i] == tags[..i];
      names := names[tag.name := tag];
      lists := lists[tag.imageType := ListFor(lists, tag.imageType) + [tag]];
      forall t ensures ListFor(lists, t) == OfType(tags[..i + 1], t) {
        OfTypeAppend(tags[..i], tag, t);
        assert ListFor(before, t) == OfType(tags[..i], t);
      }
    }
    assert tags[..|tags|] == tags;
  }

  /** `RSPImageTagCollection`, for tags that parsing produced. */
  class TagCollection {
    var byTag: map<string, Tag>
    var byType: map<ImageType, seq<Tag>>
    ghost var added: seq<Tag>

    ghost predicate Valid()
      reads this
    {
      && AllParsed(added)
      && byTag == ByName(added)
      && forall t :: ListFor(byType, t) == Series(added, t)
    }

    constructor (tags: seq<Tag>)
      requires AllParsed(tags)
      ensures Valid() && added == tags
    {
      var names, lists := GroupByType(tags);
      byTag := names;
      byType := map t | t in lists :: SortDescending(lists[t], Itself);
      added := tags;
    }

    /** One more tag at the end of its list, which is then sorted again. */
    method Add(tag: Tag)
      requires Valid() && WellParsed(tag)
      modifies this
      ensures Valid() && added == old(added) + [tag]
    {
      ghost var before := added;
      hide Series, OfType, SortDescending;
      AppendedSeries(before, tag);
      assert ByName(before + [tag]) == ByName(before)[tag.name := tag] by {
        assert (before + [tag])[..|before|] == before;
      }
      byTag := byTag[tag.name := tag];
      byType := byType[tag.imageType := SortDescending(ListFor(byType, tag.imageType) + [tag], Itself)];
      added := added + [tag];
    }

    /** The newest tag of a series, if the series has any. */
    method Latest(t: ImageType) returns (latest: Option<Tag>)
      requires Valid()
      ensures latest.None? <==> forall x | x in added :: x.imageType != t
      ensures latest.Some? ==> latest.value in added && latest.value.imageType == t
      ensures latest.Some? ==> forall x | x in added && x.imageType == t :: Compare(x, latest.value) <= 0
    {
      var tags := ListFor(byType, t);
      latest := if tags == [] then None else Some(tags[0]);
      LatestIsFirst(added, t);
    }

    /** Every tag, series after series in menu order. */
    method AllTags(hideArchSpecific: bool) returns (all: seq<Tag>)
      requires Valid()
      ensures all == AllSeries(added, hideArchSpecific, |IMAGE_TYPES|)
    {
      all := [];
      for n := 0 to |IMAGE_TYPES|
        invariant all == AllSeries(added, hideArchSpecific, n)
      {
        var chosen := ChooseCandidates(ListFor(byType, IMAGE_TYPES[n]), hideArchSpecific);
        all := all + chosen;
      }
    }

    /** `tag_for_tag_name` */
    method TagForTagName(name: string) returns (tag: Option<Tag>)
      requires Valid()
      ensures tag == if name in ByName(added) then Some(ByName(added)[name]) else None
      ensures tag.None? <==> forall x | x in added :: x.name != name
      ensures tag.Some? ==>
                exists k :: 0 <= k < |added| && added[k] == tag.value && tag.value.name == name
                            && forall j | k < j < |added| :: added[j].name != name
    {
      LastOfName(added, name);
      tag := if name in byTag then Some(byTag[name]) else None;
    }

    method FilterImageList(t: ImageType, f: Option<ImageFilter>, basis: int, invert: bool, removeArch: bool) returns (r: seq<Tag>)
      requires Valid()
      ensures r == FilteredSeries(Series(added, t), f, basis, invert, removeArch)
    {
      var candidates := ChooseCandidates(ListFor(byType, t), removeArch);
      match f {
        case None => r := if invert then [] else candidates;
        case Some(rules) =>
          r := TagFilter(candidates, rules, basis);
          if invert {
            var removed := NamesOf(r);
            r := Without(candidates, removed);
          }
      }
    }

    method Filter(policy: ImageFilterPolicy, basis: int, invert: bool, removeArch: bool) returns (r: seq<Tag>)
      requires Valid()
      ensures r == Filtered(added, policy, basis, invert, removeArch, |IMAGE_TYPES|)
    {
      r := [];
      for n := 0 to |IMAGE_TYPES|
        invariant r == Filtered(added, policy, basis, invert, removeArch, n)
      {
        var t := IMAGE_TYPES[n];
        var part := FilterImageList(t, policy.ForImageType(t), basis, invert, removeArch);
        r := r + part;
      }
    }

    method IncludedTags(included: seq<string>) returns (tags: seq<Tag>)
      requires Valid()
      ensures tags == Named(added, included)
    {
      tags := [];
      for i := 0 to |included|
        invariant tags == Named(added, included[..i])
      {
        assert included[..i + 1][..i] == included[..i];
        if included[i] in byTag {
          tags := tags + [byTag[included[i]]];
        }
      }
      assert included[..|included|] == included;
    }

    /** `included` lists the names of a set in whatever order the set is iterated. */
    method SubsetOf(releases: nat, weeklies: nat, dailies: nat, included: seq<string>, removeArch: bool) returns (r: TagCollection)
      requires Valid()
      ensures fresh(r) && r.Valid()
      ensures r.added == Subset(added, releases, weeklies, dailies, included, removeArch)
    {
      var tags := FirstTags(ListFor(byType, Release), releases, removeArch);
      var more := FirstTags(ListFor(byType, Weekly), weeklies, removeArch);
      tags := tags + more;
      more := FirstTags(ListFor(byType, Daily), dailies, removeArch);
      tags := tags + more;
      more := IncludedTags(included);
      tags := tags + more;
      SubsetParsed(added, releases, weeklies, dailies, included, removeArch);
      r := new TagCollection(tags);
    }
  }

  lemma AppendedSeries(tags: seq<Tag>, tag: Tag)
    requires AllParsed(tags) && WellParsed(tag)
    ensures AllParsed(tags + [tag])
    ensures SortDescending(Series(tags, tag.imageType) + [tag], Itself) == Series(tags + [tag], tag.imageType)
    ensures forall t | t != tag.imageType :: Series(tags + [tag], t) == Series(tags, t)
  {
    assert AllParsed(tags + [tag]);
    SeriesIsOneSeries(tags + [tag], tag.imageType);
    OfTypeAppend(tags, tag, tag.imageType);
    ResortIsSort(OfType(tags, tag.imageType), tag, Itself);
    forall t | t != tag.imageType ensures OfType(tags + [tag], t) == OfType(tags, t) {
      OfTypeAppend(tags, tag, t);
    }
  }

  lemma LatestIsFirst(tags: seq<Tag>, t: ImageType)
    requires AllParsed(tags)
    ensures var s := Series(tags, t);
            if s == [] then forall x | x in tags :: x.imageType != t
            else s[0] in tags && s[0].imageType == t && forall x | x in tags && x.imageType == t :: Compare(x, s[0]) <= 0
  {
    SeriesIsOneSeries(tags, t);
    var s := Series(tags, t);
    if s != [] {
      assert s[0] in s;
    }
    forall x | x in tags && x.imageType == t ensures s != [] && Compare(x, s[0]) <= 0 {
      assert x in s;
      CompareFlips(x, x);
    }
  }

  /** The tag found under a name is the one added last under it. */
  lemma {:induction false} LastOfName(tags: seq<Tag>, name: string)
    ensures name in ByName(tags) <==> exists x :: x in tags && x.name == name
    ensures name in ByName(tags) ==>
              exists k :: 0 <= k < |tags| && tags[k] == ByName(tags)[name] && tags[k].name == name
                          && forall j | k < j < |tags| :: tags[j].name != name
  {
    if tags != [] {
      var n := |tags| - 1;
      LastOfName(tags[..n], name);
      assert tags == tags[..n] + [tags[n]];
      if tags[n].name != name && name in ByName(tags) {
        var k :| 0 <= k < n && tags[..n][k] == ByName(tags[..n])[name] && tags[..n][k].name == name
                 && forall j | k < j < n :: tags[..n][j].name != name;
        assert tags[k] == ByName(tags)[name] && forall j | k < j < n :: tags[j] == tags[..n][j];
      }
    }
  }

  lemma {:induction false} ByNameIn(tags: seq<Tag>)
    ensures forall name | name in ByName(tags) :: ByName(tags)[name] in tags && ByName(tags)[name].name == name
    ensures forall t | t in tags :: t.name in ByName(tags)
    ensures Distinct(tags) ==> forall t | t in tags :: ByName(tags)[t.name] == t
  {
    if tags != [] {
      var n := |tags| - 1;
      ByNameIn(tags[..n]);
      assert tags == tags[..n] + [tags[n]];
    }
  }

  lemma {:induction false} NamedIn(tags: seq<Tag>, names: seq<string>)
    ensures forall t :: t in Named(tags, names) <==> t.name in names && t.name in ByName(tags) && ByName(tags)[t.name] == t
  {
    ByNameIn(tags);
    if names != [] {
      var n := |names| - 1;
      NamedIn(tags, names[..n]);
      assert names == names[..n] + [names[n]];
    }
  }

  lemma FirstIn(tags: seq<Tag>, t: ImageType, total: nat, removeArch: bool)
    requires AllParsed(tags)
    ensures forall x | x in First(Series(tags, t), total, removeArch) ::
              x in tags && x.imageType == t && (removeArch ==> IsGeneric(x))
  {
    SeriesIsOneSeries(tags, t);
    GenericIsOrdered(Series(tags, t));
    GenericOfGeneric(Series(tags, t));
    forall x | x in First(Series(tags, t), total, removeArch)
      ensures x in tags && x.imageType == t && (removeArch ==> IsGeneric(x))
    {
      assert x in Candidates(Series(tags, t), removeArch);
      assert x in Series(tags, t);
    }
  }

  lemma SubsetParsed(tags: seq<Tag>, releases: nat, weeklies: nat, dailies: nat, included: seq<string>, removeArch: bool)
    requires AllParsed(tags)
    ensures AllParsed(Subset(tags, releases, weeklies, dailies, included, removeArch))
    ensures forall x | x in Subset(tags, releases, weeklies, dailies, included, removeArch) :: x in tags
  {
    FirstIn(tags, Release, releases, removeArch);
    FirstIn(tags, Weekly, weeklies, removeArch);
    FirstIn(tags, Daily, dailies, removeArch);
    NamedIn(tags, included);
    ByNameIn(tags);
  }

  lemma {:induction false} GenericContains(tags: seq<Tag>, x: Tag)
    ensures x in tags && IsGeneric(x) ==> x in Generic(tags)
  {
    if tags != [] {
      GenericContains(tags[1..], x);
      assert tags == [tags[0]] + tags[1..];
    }
  }

  lemma PrefixIsGreatest(tags: seq<Tag>, n: nat, taken: Tag, left: Tag)
    requires Descending(tags, Itself) && n <= |tags|
    requires taken in tags[..n] && left in tags && left !in tags[..n]
    ensures Compare(left, taken) <= 0
  {
    var i :| 0 <= i < n && tags[i] == taken;
    var j :| 0 <= j < |tags| && tags[j] == left;
    assert j >= n;
  }

  /**
   `subset` takes of each series only candidates, no more than it is asked for, and leaves a
   candidate out only if it takes as many as that, none of them older.
   */
  lemma FirstAreTheGreatest(tags: seq<Tag>, t: ImageType, total: nat, removeArch: bool, x: Tag)
    requires AllParsed(tags)
    ensures var first := First(Series(tags, t), total, removeArch);
            && |first| <= total
            && (x in first ==> x in tags && x.imageType == t && (removeArch ==> x.architecture.GetOr("") == ""))
            && (x in tags && x.imageType == t && (removeArch ==> x.architecture.GetOr("") == "") && x !in first ==>
                  |first| == total && forall y | y in first :: Compare(x, y) <= 0)
  {
    hide Compare, WellParsed;
    SeriesIsOneSeries(tags, t);
    var s := Series(tags, t);
    var first := First(s, total, removeArch);
    GenericIsOrdered(s);
    FirstIn(tags, t, total, removeArch);
    if x in tags && x.imageType == t && (removeArch ==> IsGeneric(x)) && x !in first {
      GenericContains(s, x);
      assert x in s && x in Candidates(s, removeArch);
      forall y | y in first ensures Compare(x, y) <= 0 {
        PrefixIsGreatest(Candidates(s, removeArch), total, y, x);
      }
    }
  }

  /** As a set of names, `subset` is the three picks plus the included names that exist. */
  lemma SubsetNames(tags: seq<Tag>, releases: nat, weeklies: nat, dailies: nat, included: seq<string>, removeArch: bool, x: Tag)
    requires AllParsed(tags) && Distinct(tags) && x in tags
    ensures x in Subset(tags, releases, weeklies, dailies, included, removeArch) <==>
              || x in First(Series(tags, Release), releases, removeArch)
              || x in First(Series(tags, Weekly), weeklies, removeArch)
              || x in First(Series(tags, Daily), dailies, removeArch)
              || x.name in included
  {
    NamedIn(tags, included);
    ByNameIn(tags);
  }

  // ----- the filter on whole collections

  lemma {:induction false} InsertDistinct(x: Tag, s: seq<Tag>)
    requires Distinct(s) && forall y | y in s :: y.name != x.name
    ensures Distinct(Insert(x, s, Itself))
  {
    if s == [] || Compare(s[0], x) <= 0 {
    } else {
      var rest := Insert(x, s[1..], Itself);
      InsertDistinct(x, s[1..]);
      InsertKeepsElements(x, s[1..], Itself);
      forall i | 0 <= i < |rest| ensures rest[i].name != s[0].name {
        assert rest[i] in multiset(rest);
        assert rest[i] == x || rest[i] in s[1..];
      }
    }
  }

  lemma {:induction false} SortDistinct(s: seq<Tag>)
    requires Distinct(s)
    ensures Distinct(SortDescending(s, Itself))
  {
    if s != [] {
      var rest := SortDescending(s[1..], Itself);
      SortDistinct(s[1..]);
      forall y | y in rest ensures y.name != s[0].name {
        InSorted(y, s[1..], Itself);
        var j :| 0 <= j < |s[1..]| && s[1..][j] == y;
        assert s[j + 1] == y;
      }
      InsertDistinct(s[0], rest);
    }
  }

  lemma {:induction false} OfTypeDistinct(tags: seq<Tag>, t: ImageType)
    requires Distinct(tags)
    ensures Distinct(OfType(tags, t))
  {
    if tags != [] {
      OfTypeDistinct(tags[1..], t);
      OfTypeElements(tags[1..], t);
      forall i | 0 <= i < |OfType(tags[1..], t)| ensures OfType(tags[1..], t)[i].name != tags[0].name {
        assert OfType(tags[1..], t)[i] in tags[1..];
      }
    }
  }

  /** `filter` and `filter(invert=True)` split the candidates of a collection between them. */
  lemma {:induction false} FilterPartitions(tags: seq<Tag>, policy: ImageFilterPolicy, basis: int, removeArch: bool, n: nat)
    requires Distinct(tags) && n <= |IMAGE_TYPES|
    ensures multiset(Filtered(tags, policy, basis, false, removeArch, n))
            + multiset(Filtered(tags, policy, basis, true, removeArch, n))
            == multiset(AllSeries(tags, removeArch, n))
  {
    if n > 0 {
      hide *;
      var t := IMAGE_TYPES[n - 1];
      var f := policy.ForImageType(t);
      FilteredNext(tags, policy, basis, false, removeArch, n);
      FilteredNext(tags, policy, basis, true, removeArch, n);
      AllSeriesNext(tags, removeArch, n);
      FilterPartitions(tags, policy, basis, removeArch, n - 1);
      TypePartitions(tags, t, f, basis, removeArch);
      Together(Filtered(tags, policy, basis, false, removeArch, n - 1), Filtered(tags, policy, basis, true, removeArch, n - 1),
               AllSeries(tags, removeArch, n - 1), FilteredSeries(Series(tags, t), f, basis, false, removeArch),
               FilteredSeries(Series(tags, t), f, basis, true, removeArch), Candidates(Series(tags, t), removeArch));
    }
  }

  /** Two lists split between two others, one after the other. */
  lemma Together<T>(a: seq<T>, b: seq<T>, all: seq<T>, c: seq<T>, d: seq<T>, more: seq<T>)
    requires multiset(a) + multiset(b) == multiset(all) && multiset(c) + multiset(d) == multiset(more)
    ensures multiset(a + c) + multiset(b + d) == multiset(all + more)
  {
  }

  lemma TypePartitions(tags: seq<Tag>, t: ImageType, f: Option<ImageFilter>, basis: int, removeArch: bool)
    requires Distinct(tags)
    ensures multiset(FilteredSeries(Series(tags, t), f, basis, false, removeArch))
            + multiset(FilteredSeries(Series(tags, t), f, basis, true, removeArch))
            == multiset(Candidates(Series(tags, t), removeArch))
  {
    OfTypeDistinct(tags, t);
    SortDistinct(OfType(tags, t));
    if f.Some? {
      SeriesFilterPartitions(Series(tags, t), f.value, basis, removeArch);
    }
  }

  /**
   In every collection a policy keeps only passing tags, as many as it may, and no candidate
   it prunes although it passes the cutoffs is newer than one it keeps.
   */
  lemma FilterKeepsTheNewest(tags: seq<Tag>, t: ImageType, f: ImageFilter, basis: int, removeArch: bool, kept: Tag, pruned: Tag)
    requires AllParsed(tags)
    requires kept in FilteredSeries(Series(tags, t), Some(f), basis, false, removeArch)
    requires pruned in tags && pruned.imageType == t && (removeArch ==> IsGeneric(pruned)) && Passes(pruned, f, basis)
    requires pruned !in FilteredSeries(Series(tags, t), Some(f), basis, false, removeArch)
    ensures Compare(pruned, kept) <= 0
    ensures Passes(kept, f, basis) && kept in tags && kept.imageType == t
    ensures Limited(f) && |FilteredSeries(Series(tags, t), Some(f), basis, false, removeArch)| == f.number.value
  {
    var s := Series(tags, t);
    SeriesIsOneSeries(tags, t);
    GenericIsOrdered(s);
    GenericContains(s, pruned);
    assert pruned in s;
    KeptAreTheNewest(Candidates(s, removeArch), f, basis, kept, pruned);
    assert kept in s;
  }

  /**
   What passing the cutoffs means. A build or a cutoff build of zero counts as none, and so
   does an age of zero; dates older than the age or the cutoff date fail, whichever is later.
   */
  lemma PassesMeans(x: Tag, f: ImageFilter, basis: int)
    ensures Passes(x, f, basis) <==>
              && (x.date.Some? && f.cutoffDate.Some? ==> f.cutoffDate.value <= x.date.value)
              && (x.date.Some? && f.age.GetOr(0) != 0 ==> basis - f.age.value <= x.date.value)
              && (x.build.GetOr(0) != 0 && f.cutoffBuild.Some? ==> f.cutoffBuild.value <= x.build.value)
              && (x.semantic && x.version.Some? && f.cutoffVersion.Some? ==> CompareVersion(x.version.value, f.cutoffVersion.value) >= 0)
  {
  }

  lemma {:induction false} PassingTells(tags: seq<Tag>, f: ImageFilter, basis: int)
    ensures forall x | x in Passing(tags, f, basis) :: x in tags && Passes(x, f, basis)
  {
    if tags != [] {
      PassingTells(tags[1..], f, basis);
      assert tags == [tags[0]] + tags[1..];
    }
  }

  /** What the filter of a series yields, in terms of what passes. */
  lemma SeriesFiltered(tags: seq<Tag>, t: ImageType, f: ImageFilter, basis: int, removeArch: bool, x: Tag)
    requires AllParsed(tags)
    ensures var r := FilteredSeries(Series(tags, t), Some(f), basis, false, removeArch);
            && (x in r ==> x in tags && x.imageType == t && (removeArch ==> IsGeneric(x)) && Passes(x, f, basis))
            && (x in tags && x.imageType == t && (removeArch ==> IsGeneric(x)) && Passes(x, f, basis) && x !in r ==>
                  f.number.GetOr(0) != 0 && |r| == f.number.value && forall y | y in r :: Compare(x, y) <= 0)
            && (f.number.GetOr(0) != 0 ==> |r| <= f.number.value)
  {
    hide Passes, Compare, WellParsed;
    var s := Series(tags, t);
    var candidates := Candidates(s, removeArch);
    var r := Kept(candidates, f, basis);
    SeriesIsOneSeries(tags, t);
    GenericOfGeneric(s);
    GenericIsOrdered(s);
    PassingTells(candidates, f, basis);
    if x in r {
      assert x in Passing(candidates, f, basis);
    } else if x in tags && x.imageType == t && (removeArch ==> IsGeneric(x)) && Passes(x, f, basis) {
      GenericContains(s, x);
      assert x in s && x in candidates;
      PassingContains(candidates, f, basis, x);
      forall y | y in r ensures Compare(x, y) <= 0 {
        KeptAreTheNewest(candidates, f, basis, y, x);
      }
    }
  }

  /**
   The filter of a collection, type by type with the policy for that type: what it yields
   meets every cutoff, and what meets every cutoff is yielded unless the number of tags is
   limited and as many, none of them older, are yielded.
   */
  lemma FilterMeans(tags: seq<Tag>, policy: ImageFilterPolicy, f: ImageFilter, basis: int, removeArch: bool, x: Tag)
    requires AllParsed(tags) && !x.imageType.Alias? && !x.imageType.Unknown?
    requires (x.imageType.Release? ==> f == policy.release) && (x.imageType.Weekly? ==> f == policy.weekly)
    requires (x.imageType.Daily? ==> f == policy.daily) && (x.imageType.Candidate? ==> f == policy.releaseCandidate)
    requires x.imageType.Experimental? ==> f == policy.experimental
    ensures var r := Filtered(tags, policy, basis, false, removeArch, |IMAGE_TYPES|);
            var alike := OfType(r, x.imageType);
            var meets :=
              && (x.date.Some? && f.cutoffDate.Some? ==> f.cutoffDate.value <= x.date.value)
              && (x.date.Some? && f.age.GetOr(0) != 0 ==> basis - f.age.value <= x.date.value)
              && (x.build.GetOr(0) != 0 && f.cutoffBuild.Some? ==> f.cutoffBuild.value <= x.build.value)
              && (x.semantic && x.version.Some? && f.cutoffVersion.Some? ==> CompareVersion(x.version.value, f.cutoffVersion.value) >= 0);
            && (x in r ==> x in tags && (removeArch ==> x.architecture.GetOr("") == "") && meets)
            && (x in tags && (removeArch ==> x.architecture.GetOr("") == "") && meets && x !in r ==>
                  f.number.GetOr(0) != 0 && |alike| == f.number.value && forall y | y in alike :: Compare(x, y) <= 0)
            && (f.number.GetOr(0) != 0 ==> |alike| <= f.number.value)
  {
    hide Passes, Compare, CompareVersion, WellParsed, Filtered, FilteredSeries, Series, OfType;
    var t := x.imageType;
    var m := PlaceOf(t);
    FilteredOfType(tags, policy, basis, false, removeArch, m, |IMAGE_TYPES|);
    OfTypeElements(Filtered(tags, policy, basis, false, removeArch, |IMAGE_TYPES|), t);
    SeriesFiltered(tags, t, f, basis, removeArch, x);
    PassesMeans(x, f, basis);
  }

  /** The inverted filter yields exactly the candidates that the filter does not. */
  lemma InvertedIsRest(tags: seq<Tag>, policy: ImageFilterPolicy, basis: int, removeArch: bool, x: Tag)
    requires Distinct(tags)
    ensures x in Filtered(tags, policy, basis, true, removeArch, |IMAGE_TYPES|) <==>
              && x in tags && (removeArch ==> x.architecture.GetOr("") == "")
              && x !in Filtered(tags, policy, basis, false, removeArch, |IMAGE_TYPES|)
  {
    hide Filtered, AllSeries;
    var kept, rest := Filtered(tags, policy, basis, false, removeArch, |IMAGE_TYPES|), Filtered(tags, policy, basis, true, removeArch, |IMAGE_TYPES|);
    FilterPartitions(tags, policy, basis, removeArch, |IMAGE_TYPES|);
    EveryTagListed(tags, removeArch, x);
    DistinctCounts(tags, x);
    assert multiset(kept)[x] + multiset(rest)[x] == multiset(AllSeries(tags, removeArch, |IMAGE_TYPES|))[x];
    assert x in kept <==> multiset(kept)[x] > 0;
    assert x in rest <==> multiset(rest)[x] > 0;
  }

  lemma {:induction false} WithoutFrom(tags: seq<Tag>, names: set<string>)
    ensures forall x | x in Without(tags, names) :: x in tags
  {
    if tags != [] {
      WithoutFrom(tags[1..], names);
      assert tags == [tags[0]] + tags[1..];
    }
  }

  lemma {:induction false} GenericFrom(tags: seq<Tag>)
    ensures forall x | x in Generic(tags) :: x in tags
  {
    if tags != [] {
      GenericFrom(tags[1..]);
      assert tags == [tags[0]] + tags[1..];
    }
  }

  lemma FilteredFrom(tags: seq<Tag>, f: Option<ImageFilter>, basis: int, invert: bool, removeArch: bool)
    ensures forall x | x in FilteredSeries(tags, f, basis, invert, removeArch) :: x in tags
  {
    var candidates := Candidates(tags, removeArch);
    GenericFrom(tags);
    if f.Some? {
      PassingFrom(candidates, f.value, basis);
      WithoutFrom(candidates, NamesOf(Kept(candidates, f.value, basis)));
    }
  }

  lemma {:induction false} OfTypeConcat(a: seq<Tag>, b: seq<Tag>, t: ImageType)
    ensures OfType(a + b, t) == OfType(a, t) + OfType(b, t)
  {
    if a == [] {
      assert a + b == b;
    } else {
      assert (a + b)[1..] == a[1..] + b;
      OfTypeConcat(a[1..], b, t);
    }
  }

  lemma {:induction false} OfTypeUniform(tags: seq<Tag>, t: ImageType, u: ImageType)
    requires forall i | 0 <= i < |tags| :: tags[i].imageType == u
    ensures OfType(tags, t) == if t == u then tags else []
  {
    if tags != [] {
      OfTypeUniform(tags[1..], t, u);
      assert tags == [tags[0]] + tags[1..];
    }
  }

  lemma TypesApart(m: nat, n: nat)
    requires m < |IMAGE_TYPES| && n < |IMAGE_TYPES|
    ensures IMAGE_TYPES[m] == IMAGE_TYPES[n] <==> m == n
  {
  }

  lemma PlaceOf(t: ImageType) returns (m: nat)
    ensures m < |IMAGE_TYPES| && IMAGE_TYPES[m] == t
  {
    m := match t
    case Alias => 0
    case Release => 1
    case Weekly => 2
    case Daily => 3
    case Candidate => 4
    case Experimental => 5
    case Unknown => 6;
  }

  lemma FilteredUniform(tags: seq<Tag>, u: ImageType, f: Option<ImageFilter>, basis: int, invert: bool, removeArch: bool, t: ImageType)
    ensures var part := FilteredSeries(Series(tags, u), f, basis, invert, removeArch);
            OfType(part, t) == if t == u then part else []
  {
    hide FilteredSeries, Series, OfType;
    var part := FilteredSeries(Series(tags, u), f, basis, invert, removeArch);
    FilteredFrom(Series(tags, u), f, basis, invert, removeArch);
    InSeriesOf(tags, u);
    assert forall i | 0 <= i < |part| :: part[i] in Series(tags, u);
    OfTypeUniform(part, t, u);
  }

  /** Of one type, the filter of a collection yields what it yields of that series. */
  lemma {:induction false} FilteredOfType(tags: seq<Tag>, policy: ImageFilterPolicy, basis: int, invert: bool, removeArch: bool,
                                          m: nat, n: nat)
    requires m < |IMAGE_TYPES| && n <= |IMAGE_TYPES|
    ensures var t := IMAGE_TYPES[m];
            OfType(Filtered(tags, policy, basis, invert, removeArch, n), t) ==
            if m < n then FilteredSeries(Series(tags, t), policy.ForImageType(t), basis, invert, removeArch) else []
  {
    if n > 0 {
      hide *;
      FilteredNext(tags, policy, basis, invert, removeArch, n);
      var t, u := IMAGE_TYPES[m], IMAGE_TYPES[n - 1];
      FilteredOfType(tags, policy, basis, invert, removeArch, m, n - 1);
      FilteredUniform(tags, u, policy.ForImageType(u), basis, invert, removeArch, t);
      OfTypeConcat(Filtered(tags, policy, basis, invert, removeArch, n - 1),
                   FilteredSeries(Series(tags, u), policy.ForImageType(u), basis, invert, removeArch), t);
      TypesApart(m, n - 1);
    }
  }

  /**
   Tags of a type without a filter, which are the aliases and the unknown ones, are all kept
   under every policy, and an inverted filter never yields them.
   */
  lemma UnfilteredAreKept(tags: seq<Tag>, policy: ImageFilterPolicy, basis: int, removeArch: bool, x: Tag)
    requires x in tags && (x.imageType.Unknown? || x.imageType.Alias?) && (removeArch ==> IsGeneric(x))
    ensures x in Filtered(tags, policy, basis, false, removeArch, |IMAGE_TYPES|)
    ensures x !in Filtered(tags, policy, basis, true, removeArch, |IMAGE_TYPES|)
  {
    hide Series, Filtered, OfType;
    var t := x.imageType;
    var m := PlaceOf(t);
    FilteredOfType(tags, policy, basis, false, removeArch, m, |IMAGE_TYPES|);
    FilteredOfType(tags, policy, basis, true, removeArch, m, |IMAGE_TYPES|);
    OfTypeElements(Filtered(tags, policy, basis, false, removeArch, |IMAGE_TYPES|), t);
    OfTypeElements(Filtered(tags, policy, basis, true, removeArch, |IMAGE_TYPES|), t);
    InSeriesOf(tags, t);
    GenericContains(Series(tags, t), x);
  }

  lemma FilteredIsOrdered(tags: seq<Tag>, f: Option<ImageFilter>, basis: int, removeArch: bool)
    requires Descending(tags, Itself)
    ensures Descending(FilteredSeries(tags, f, basis, false, removeArch), Itself)
  {
    GenericIsOrdered(tags);
    if f.Some? {
      PassingIsOrdered(Candidates(tags, removeArch), f.value, basis);
    }
  }

  /** Filtering a collection made of what the filter kept keeps all of it, in the same order. */
  lemma {:induction false} RefilterKeepsAll(tags: seq<Tag>, policy: ImageFilterPolicy, basis: int, removeArch: bool, n: nat)
    requires AllParsed(tags) && n <= |IMAGE_TYPES|
    ensures var kept := Filtered(tags, policy, basis, false, removeArch, |IMAGE_TYPES|);
            Filtered(kept, policy, basis, false, removeArch, n) == Filtered(tags, policy, basis, false, removeArch, n)
  {
    if n > 0 {
      hide FilteredSeries, SortDescending, Descending, AllParsed;
      var t := IMAGE_TYPES[n - 1];
      var kept := Filtered(tags, policy, basis, false, removeArch, |IMAGE_TYPES|);
      RefilterKeepsAll(tags, policy, basis, removeArch, n - 1);
      FilteredOfType(tags, policy, basis, false, removeArch, n - 1, |IMAGE_TYPES|);
      SeriesIsOneSeries(tags, t);
      FilteredIsOrdered(Series(tags, t), policy.ForImageType(t), basis, removeArch);
      SortOfSorted(OfType(kept, t), Itself);
      FilterIsIdempotent(Series(tags, t), policy.ForImageType(t), basis, removeArch);
    }
  }
}
