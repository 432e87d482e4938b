/** Runs of the operations of collections that share their images, up to the error of alias resolution. */
module ImageRuns {
  import opened Wrappers
  import opened TagOrder
  import opened Images
  import opened ImageLists
  import TagCollections
  import opened ImageFronts
  import opened ImageClashes
  import opened ImageIndex

  lemma OtherTypesLack(byType: map<ImageType, seq<RSPImage>>, t: ImageType, i: RSPImage)
    requires TypesFit(byType) && t != i.imageType
    ensures multiset(ListOf(byType, t))[i] == 0
  {
    assert i !in ListOf(byType, t);
  }

  /** An image is listed as often as it is listed among those of its type. */
  lemma {:induction false} ListedByType(byType: map<ImageType, seq<RSPImage>>, n: nat, i: RSPImage)
    requires n <= KINDS && TypesFit(byType)
    ensures multiset(Listing(byType, n))[i] == if Rank(i.imageType) < n then multiset(ListOf(byType, i.imageType))[i] else 0
  {
    hide TypeAt, Rank, TypesFit, ListOf;
    if n > 0 {
      ListedByType(byType, n - 1, i);
      RankIsPlace(i.imageType, n - 1);
      ListingNext(byType, n);
      if TypeAt(n - 1) != i.imageType {
        OtherTypesLack(byType, TypeAt(n - 1), i);
      }
    }
  }

  /** The only image of its type is all that is listed of that type. */
  lemma OneOfItsType(byType: map<ImageType, seq<RSPImage>>, i: RSPImage)
    requires TypesFit(byType) && multiset(Everything(byType))[i] == 1
    requires forall j | j in SetOf(Everything(byType)) && j.imageType == i.imageType :: j == i
    ensures ListOf(byType, i.imageType) == [i]
  {
    hide Listing, Rank;
    var list := ListOf(byType, i.imageType);
    ListedByType(byType, KINDS, i);
    ListedIn(byType, i.imageType);
    forall k | 0 <= k < |list| ensures list[k] == i {
      assert list[k] in list;
    }
    if |list| > 1 {
      TwiceCounts(list, 0, 1);
    }
  }

  /** One release or one weekly is picked if one is asked for and there is just one. */
  lemma PicksOne(c: RSPImageCollection, releases: nat, weeklies: nat, removeArch: bool, i: RSPImage)
    requires removeArch ==> i.IsGeneric()
    requires || (releases == 1 && weeklies == 0 && ListOf(c.byType, Release) == [i])
             || (releases == 0 && weeklies == 1 && ListOf(c.byType, Weekly) == [i])
    ensures c.Picked(releases, weeklies, 0, removeArch) == [i]
  {
    OneVisible(i, removeArch);
  }

  lemma OneVisible(i: RSPImage, removeArch: bool)
    requires removeArch ==> i.IsGeneric()
    ensures Visible([i], removeArch) == [i]
  {
    AmongAll([i], Shown(SetOf([i]), removeArch));
  }

  /** Images that are not for one architecture, as long as none is. */
  lemma AllGeneric(universe: set<RSPImage>, i: RSPImage)
    requires i in universe
    ensures NoArchitectures(universe) ==> i.IsGeneric()
  {
  }

  lemma NamesOne(byTag: map<string, RSPImage>, i: RSPImage)
    requires i.tag in byTag && byTag[i.tag] == i
    ensures NamedIn(byTag, {i.tag}) == {i}
  {
  }

  lemma CountedOf<T>(s: seq<T>, a: T, b: T)
    requires multiset(s) == multiset{a, b}
    ensures s == [a, b] || s == [b, a]
  {
    assert |s| == |multiset(s)| == 2;
    assert s == [s[0], s[1]];
    assert multiset(s) == multiset{s[0], s[1]};
    assert s[0] in multiset{a, b} && s[1] in multiset{a, b};
  }

  /** The list of a subset that picks one image and includes one by name. */
  lemma BothAre(all: seq<RSPImage>, picked: RSPImage, named: RSPImage)
    requires ListsBoth(all, [picked], {named})
    ensures all == [picked, named] || all == [named, picked]
  {
    forall i ensures multiset(all)[i] == multiset{picked, named}[i] {
      if i in all {
        assert i in SetOf(all);
      }
      assert multiset([picked])[i] == if i == picked then 1 else 0;
      if i == picked || i == named {
        assert picked in SetOf([picked]);
        assert i in SetOf(all);
      }
    }
    assert multiset(all) == multiset{picked, named};
    CountedOf(all, picked, named);
  }

  lemma InOrder(all: seq<RSPImage>, before: map<RSPImage, Saved>, a: RSPImage, b: RSPImage)
    requires all == [a, b] || all == [b, a]
    requires InMenuOrderAt(before, all) && a in before && b in before
    requires Rank(before[a].imageType) < Rank(before[b].imageType)
    ensures all == [a, b]
  {
    hide Rank, Compare;
    assert |all| == 2;
    assert MenuBeforeAt(before, all[0], all[1]);
  }

  /** An image that is its own alias, listed after one of its digest that it does not know. */
  lemma ClashOfTwo(all: seq<RSPImage>, before: map<RSPImage, Saved>, f: RSPImage, w: RSPImage)
    requires all == [f, w] && f.digest == w.digest && f.tag != w.tag
    requires f in PlainBefore(before) && w in PlainBefore(before)
    requires w.tag in before[w].aliases && f.tag !in before[w].aliases
    ensures Clashes(all, before)
  {
    assert all[0] == f && all[1] == w;
    assert IsFirst(all, 1, PlainBefore(before), w.digest, f);
    assert f in SetOf(all);
    assert ClashAt(all, 1, before);
    ClashesHere(all, 1, before);
  }

  /** Of three images of one digest, the third learns of the first only. */
  lemma LastKnowsFirst(images: seq<RSPImage>, before: map<RSPImage, Saved>, now: map<RSPImage, Saved>, byDigest: map<string, RSPImage>,
                       f: RSPImage, z: RSPImage, w: RSPImage)
    requires images == [f, z, w] && f.digest == z.digest == w.digest && f != w
    requires {f, z, w} <= PlainBefore(before)
    requires AliasesResolved(images, PlainBefore(before), byDigest) && PassKnows(images, 3, before, now, byDigest)
    ensures w in now && now[w].aliases == before[w].aliases + {f.tag}
  {
    assert images[0] == f && images[1] == z && images[2] == w;
    assert f in images && w in images[..3] && w in SetOf(images);
    assert IsFirst(images, 3, PlainBefore(before), f.digest, f);
    FirstIsOne(images, 3, PlainBefore(before), f.digest, byDigest[f.digest], f);
    assert KnowsAt(images, 3, before, now, byDigest, w);
  }

  lemma ThreeApart(images: seq<RSPImage>, f: RSPImage, z: RSPImage, w: RSPImage)
    requires images == [f, z, w] && f.tag != z.tag && f.tag != w.tag && z.tag != w.tag
    ensures SetOf(images) == {f, z, w} && DistinctTags(images) && TagsApart(SetOf(images)) && |images| == 3
  {
    assert images[0] == f && images[1] == z && images[2] == w;
  }

  lemma NobodyOwn(images: set<RSPImage>, reg: Registry)
    requires reg.own == {}
    ensures Lone(images, reg)
  {
  }

  lemma AllPlain(f: RSPImage, z: RSPImage, w: RSPImage)
    requires f.imageType.Candidate? && z.imageType.Release? && w.imageType.Weekly?
    ensures {f, z, w} <= PlainBefore(Snapshot({f, z, w})) && {f, z, w} == PlainAmong({f, z, w})
    ensures forall i | i in {f, z, w} :: Snapshot({f, z, w})[i].aliases == i.aliases && Snapshot({f, z, w})[i].imageType == i.imageType
    ensures Snapshot({f, z, w}).Keys == {f, z, w}
  {
  }

  lemma ListsOfThree(byType: map<ImageType, seq<RSPImage>>, f: RSPImage, z: RSPImage, w: RSPImage)
    requires TypesFit(byType) && multiset(Everything(byType)) == multiset([f, z, w])
    requires f.imageType.Candidate? && z.imageType.Release? && w.imageType.Weekly?
    ensures ListOf(byType, Release) == [z] && ListOf(byType, Weekly) == [w]
  {
    hide Listing, TypesFit;
    SameCounts(Everything(byType), [f, z, w]);
    assert SetOf([f, z, w]) == {f, z, w};
    assert multiset([f, z, w])[z] == 1 && multiset([f, z, w])[w] == 1;
    OneOfItsType(byType, z);
    OneOfItsType(byType, w);
  }

  /** Images that are no aliases keep their types whatever is done to them. */
  lemma TypesStay(before: map<RSPImage, Saved>, images: set<RSPImage>)
    requires OnlyGrown(before) && images <= PlainBefore(before)
    ensures forall i | i in images :: i.imageType == before[i].imageType && before[i].aliases <= i.aliases
  {
  }

  /** A collection of new images none of which is an alias, each with a tag of its own. */
  method CollectNew(images: seq<RSPImage>, ghost universe: set<RSPImage>, ghost reg: Registry)
    returns (c: RSPImageCollection)
    requires DistinctTags(images) && SetOf(images) == universe == PlainAmong(universe) && AllOk(universe, reg) && reg.own == {}
    modifies universe`aliases, universe`imageType, universe`aliasTarget, universe`cycle, universe`architecture, universe`date
    ensures fresh(c) && c.Star(reg) && c.members == universe && AllOk(universe, reg) && OnlyGrown(old(Snapshot(universe)))
    ensures IndexesTags(c.byTag, images) && TypesFit(c.byType) && multiset(Everything(c.byType)) == multiset(images)
    ensures AliasesResolved(images, PlainBefore(old(Snapshot(universe))), c.byDigest)
    ensures PassKnows(images, |images|, old(Snapshot(universe)), Snapshot(universe), c.byDigest)
  {
    hide *;
    SnapshotPlain(universe);
    ghost var before := Snapshot(universe);
    OfAnyCycle(images);
    NobodyOwn(universe, reg);
    LoneNeverClashes(images, universe, universe, reg);
    ghost var after;
    var made;
    made, after := RSPImageCollection.Make(images, None, universe, reg);
    c := made.value;
    NeverTwice(images, c.byDigest, reg);
    SettledMeans(images, before, c.byDigest, c.unresolved.Keys, reg);
  }

  /** Three new images of one digest, none of them an alias: what their collection lists, and what the third has learned. */
  method CollectThree(f: RSPImage, z: RSPImage, w: RSPImage, ghost reg: Registry)
    returns (c: RSPImageCollection)
    requires f.digest == z.digest == w.digest && f.tag != z.tag && f.tag != w.tag && z.tag != w.tag
    requires f.imageType.Candidate? && z.imageType.Release? && w.imageType.Weekly?
    requires AllOk({f, z, w}, reg) && reg.own == {} && w.aliases == {}
    modifies {f, z, w}`aliases, {f, z, w}`imageType, {f, z, w}`aliasTarget, {f, z, w}`cycle, {f, z, w}`architecture, {f, z, w}`date
    ensures fresh(c) && c.Star(reg) && c.members == {f, z, w} && AllOk({f, z, w}, reg)
    ensures w.tag in c.byTag && c.byTag[w.tag] == w
    ensures ListOf(c.byType, Release) == [z] && ListOf(c.byType, Weekly) == [w]
    ensures z.imageType.Release? && w.imageType.Weekly? && w.aliases == {f.tag}
    ensures old(NoArchitectures({f, z, w})) ==> NoArchitectures({f, z, w})
  {
    hide *;
    SnapshotPlain({f, z, w});
    ghost var universe, before := {f, z, w}, Snapshot({f, z, w});
    var images := [f, z, w];
    ThreeApart(images, f, z, w);
    AllPlain(f, z, w);
    c := CollectNew(images, universe, reg);
    StillGeneric(before);
    TypesStay(before, universe);
    LastKnowsFirst(images, before, Snapshot(universe), c.byDigest, f, z, w);
    ListsOfThree(c.byType, f, z, w);
    AllPlain(f, z, w);
    IndexesAllTags(c.byTag, images);
  }

  /** The registry of a subset that lists one image twice. */
  lemma OwnNow(reg: Registry, i: RSPImage, byDigest: map<string, RSPImage>)
    requires i.digest in byDigest && byDigest[i.digest] == i
    ensures i in Resolved(reg, [i, i], byDigest).own
  {
    var twice := [i, i];
    assert twice[0].tag == i.tag && twice[1].tag == i.tag;
    assert i in SetOf(twice);
  }

  lemma OnlyFront(c: RSPImageCollection, i: RSPImage, reg: Registry)
    requires c.Star(reg) && c.members == {i}
    ensures i.digest in c.byDigest && c.byDigest[i.digest] == i
  {
    MembersFound(c, reg);
  }

  lemma LearnsItself(all: seq<RSPImage>, before: map<RSPImage, Saved>, now: map<RSPImage, Saved>, byDigest: map<string, RSPImage>, i: RSPImage)
    requires PassKnows(all, |all|, before, now, byDigest) && SetOf(all) == {i}
    requires i.digest in byDigest && byDigest[i.digest] == i
    ensures i in now && i in before && now[i].aliases <= before[i].aliases + {i.tag}
  {
    assert TagsOf(SetOf(all)) == {i.tag};
  }

  /** A subset that picks and includes the same weekly image makes it its own alias; it learns nothing else. */
  method PickAndInclude(c: RSPImageCollection, w: RSPImage, removeArch: bool, ghost universe: set<RSPImage>, ghost reg: Registry)
    returns (r: Result<RSPImageCollection, ImageError>, ghost after: Registry)
    requires c.Star(reg) && c.members <= universe && AllOk(universe, reg) && reg.own == {}
    requires w.tag in c.byTag && c.byTag[w.tag] == w && ListOf(c.byType, Weekly) == [w] && w.imageType.Weekly?
    requires removeArch ==> w.IsGeneric()
    modifies universe`aliases, universe`imageType, universe`aliasTarget, universe`cycle, universe`architecture, universe`date
    ensures r.Ok? && c.Star(after) && AllOk(universe, after) && OnlyGrown(old(Snapshot(universe)))
    ensures w.tag in w.aliases && w.aliases <= old(w.aliases) + {w.tag}
  {
    hide *;
    ghost var before, all := Snapshot(universe), [];
    SnapshotFields(universe);
    MembersFound(c, reg);
    OnePlain(universe, w);
    NobodyOwn(c.members, reg);
    PicksOne(c, 0, 1, removeArch, w);
    NamesOne(c.byTag, w);
    r, after, all := c.Subset(0, 1, 0, {w.tag}, removeArch, universe, reg);
    BothAre(all, w, w);
    OnlyThis(all, w);
    OnlyFront(r.value, w, after);
    OwnNow(reg, w, r.value.byDigest);
    LearnsItself(all, before, Snapshot(universe), r.value.byDigest, w);
    SnapshotFields(universe);
    OwnInAll(universe, w, after);
  }

  /** The same, before an image is added that takes its place in front: it does not know that one, so adding fails. */
  method AddAfterSubsetFails(c: RSPImageCollection, w: RSPImage, z: RSPImage, removeArch: bool, ghost universe: set<RSPImage>, ghost reg: Registry)
    returns (first: Result<RSPImageCollection, ImageError>, r: Result<(), ImageError>)
    requires c.Star(reg) && c.members + {z} <= universe && AllOk(universe, reg) && reg.own == {}
    requires w.tag in c.byTag && c.byTag[w.tag] == w && ListOf(c.byType, Weekly) == [w] && w.imageType.Weekly?
    requires w.digest in c.byDigest && c.byDigest[w.digest] == w && w.digest !in c.unresolved && (removeArch ==> w.IsGeneric())
    requires z.digest == w.digest && z.imageType.Release? && z.tag !in c.byTag && z.tag !in w.aliases
    modifies c, universe`aliases, universe`imageType, universe`aliasTarget, universe`cycle, universe`architecture, universe`date
    ensures first.Ok? && r == Err(SetChangedDuringIteration)
  {
    hide *;
    ghost var was, after := Snapshot(universe), reg;
    SnapshotFields(universe);
    MembersFound(c, reg);
    first, after := PickAndInclude(c, w, removeArch, universe, reg);
    StillTyped(universe, was, z, w);
    ClashParts(c.byTag, z, w);
    AddClashes(c, z, universe);
    r, after := c.Add(z, universe, after);
  }

  lemma AddClashes(c: RSPImageCollection, image: RSPImage, universe: set<RSPImage>)
    requires image.imageType.Release? && image.digest !in c.unresolved && image.digest in c.byDigest
    requires Clash(c.byTag, image, c.byDigest[image.digest])
    ensures c.AddFails(image, universe)
  {
  }

  lemma OnePlain(universe: set<RSPImage>, i: RSPImage)
    requires i in universe && i.imageType.Weekly?
    ensures i in PlainAmong(universe) && i in PlainBefore(Snapshot(universe))
  {
  }

  lemma OnlyThis(all: seq<RSPImage>, i: RSPImage)
    requires all == [i, i]
    ensures SetOf(all) == {i}
  {
    assert all[0] == i;
  }

  lemma OwnInAll(universe: set<RSPImage>, i: RSPImage, reg: Registry)
    requires AllOk(universe, reg) && i in universe
    ensures i.tag in i.aliases <==> i in reg.own
  {
    OwnDigest(i, reg);
  }

  /** Two subsets of one collection that both include an image; only the second picks one of its digest that it does not know. */
  method TwoSubsets(c: RSPImageCollection, z: RSPImage, w: RSPImage, removeArch: bool, ghost universe: set<RSPImage>, ghost reg: Registry)
    returns (first: Result<RSPImageCollection, ImageError>, second: Result<RSPImageCollection, ImageError>)
    requires c.Star(reg) && c.members <= universe && z in universe && AllOk(universe, reg) && reg.own == {}
    requires w.tag in c.byTag && c.byTag[w.tag] == w && ListOf(c.byType, Weekly) == [w] && w.imageType.Weekly?
    requires ListOf(c.byType, Release) == [z] && z.imageType.Release?
    requires z.digest == w.digest && z.tag != w.tag && z.tag !in w.aliases && (removeArch ==> NoArchitectures(universe))
    modifies universe`aliases, universe`imageType, universe`aliasTarget, universe`cycle, universe`architecture, universe`date
    ensures first.Ok? && second == Err(SetChangedDuringIteration)
  {
    hide *;
    ghost var was, after, all := Snapshot(universe), reg, [];
    SnapshotFields(universe);
    SnapshotPlain(universe);
    MembersFound(c, reg);
    AllGeneric(universe, w);
    first, after := PickAndInclude(c, w, removeArch, universe, reg);
    StillTyped(universe, was, z, w);
    StillGeneric(was);
    AllGeneric(universe, z);
    ghost var before := Snapshot(universe);
    PicksOne(c, 1, 0, removeArch, z);
    NamesOne(c.byTag, w);
    second, after, all := c.Subset(1, 0, 0, {w.tag}, removeArch, universe, after);
    BothAre(all, z, w);
    InOrder(all, before, z, w);
    ClashOfTwo(all, before, z, w);
  }

  /**
   A collection of one digest that is asked for two subsets, with the same weekly image
   included in both: the first makes that image its own alias, and the second, which picks
   a release it does not know, fails.
   */
  method SecondSubsetFails(candidate: Tag, release: Tag, weekly: Tag, digest: string, removeArch: bool)
    returns (first: Result<RSPImageCollection, ImageError>, second: Result<RSPImageCollection, ImageError>)
    requires candidate.imageType.Candidate? && release.imageType.Release? && weekly.imageType.Weekly?
    requires WellParsed(candidate) && WellParsed(release) && WellParsed(weekly)
    requires removeArch ==> TagCollections.IsGeneric(candidate) && TagCollections.IsGeneric(release) && TagCollections.IsGeneric(weekly)
    requires candidate.name != release.name && candidate.name != weekly.name && release.name != weekly.name
    ensures first.Ok? && second == Err(SetChangedDuringIteration)
  {
    hide *;
    var f := new RSPImage(candidate, digest);
    var z := new RSPImage(release, digest);
    var w := new RSPImage(weekly, digest);
    ghost var reg, universe := Registry((_: string) => digest, (_: string) => false, {}), {f, z, w};
    NewOk(f, reg);
    NewOk(z, reg);
    NewOk(w, reg);
    AllThree(f, z, w, reg);
    GenericThree(f, z, w);
    var c := CollectThree(f, z, w, reg);
    first, second := TwoSubsets(c, z, w, removeArch, universe, reg);
  }

  /** Two new image objects of one tag: the first comes to the front, the second is found by the tag, and both are their own aliases. */
  method CollectTwins(tag: Tag, digest: string)
    returns (c: RSPImageCollection, first: RSPImage, last: RSPImage, ghost reg: Registry)
    requires WellParsed(tag) && !MayBeAlias(tag.imageType)
    ensures c.Star(reg) && first != last && c.members == {first, last} && multiset(Everything(c.byType)) == multiset{first, last}
    ensures digest in c.byDigest && c.byDigest[digest] == first && tag.name in c.byTag && c.byTag[tag.name] == last
    ensures tag.name in first.aliases && tag.name in last.aliases
    ensures c.Reached(first, digest) && c.Reached(last, digest)
  {
    hide *;
    first := new RSPImage(tag, digest);
    last := new RSPImage(tag, digest);
    ghost var universe := {first, last};
    var images := [first, last];
    reg := Registry((_: string) => digest, (_: string) => false, {});
    PlainType(tag.imageType);
    NewOk(first, reg);
    NewOk(last, reg);
    BothOk(first, last, reg);
    ghost var before := Snapshot(universe);
    BothPlain(images, first, last);
    OfAnyCycle(images);
    NobodyOwn(universe, reg);
    LoneNeverClashes(images, universe, universe, reg);
    var made;
    ghost var after;
    made, after := RSPImageCollection.Make(images, None, universe, reg);
    c := made.value;
    SettledMeans(images, before, c.byDigest, c.unresolved.Keys, reg);
    TwinsAre(c, images, before, reg, first, last);
    reg := after;
  }

  lemma PlainType(t: ImageType)
    requires !MayBeAlias(t)
    ensures !t.Alias? && !t.Unknown?
  {
  }

  lemma BothOk(i: RSPImage, j: RSPImage, reg: Registry)
    requires ImageOk(i, reg) && ImageOk(j, reg)
    ensures AllOk({i, j}, reg)
  {
    hide ImageOk;
  }

  lemma BothPlain(images: seq<RSPImage>, i: RSPImage, j: RSPImage)
    requires images == [i, j] && i.digest == j.digest && i.tag == j.tag
    requires !i.imageType.Alias? && !i.imageType.Unknown? && !j.imageType.Alias? && !j.imageType.Unknown?
    ensures SetOf(images) == {i, j} && Found(images, j) && multiset(images) == multiset{i, j}
    ensures IsFirst(images, |images|, PlainBefore(Snapshot({i, j})), i.digest, i) && Snapshot({i, j}).Keys == {i, j}
  {
    assert images[0] == i && images[1] == j;
    assert IsLast(images, 1);
  }

  lemma StillTyped(universe: set<RSPImage>, was: map<RSPImage, Saved>, z: RSPImage, w: RSPImage)
    requires OnlyGrown(was) && {z, w} <= universe == was.Keys
    requires was[z].imageType.Release? && was[w].imageType.Weekly?
    ensures z.imageType.Release?
    ensures var now := Snapshot(universe);
            && now.Keys == universe && z in PlainBefore(now) && w in PlainBefore(now) && now[w].aliases == w.aliases
            && Rank(now[z].imageType) < Rank(now[w].imageType)
  {
  }

  lemma NewOk(i: RSPImage, reg: Registry)
    requires WellParsed(i.parsed) && i.Key() == i.parsed && i.aliases == {} && i.aliasTarget.None?
    requires reg.digestOf(i.tag) == i.digest && reg.own == {} && !reg.namesAlias(i.tag) && !i.parsed.imageType.Alias? && !i.parsed.imageType.Unknown?
    ensures ImageOk(i, reg) && i.imageType == i.parsed.imageType
  {
    hide WellParsed;
  }

  lemma GenericThree(f: RSPImage, z: RSPImage, w: RSPImage)
    requires f.Key() == f.parsed && z.Key() == z.parsed && w.Key() == w.parsed
    ensures TagCollections.IsGeneric(f.parsed) && TagCollections.IsGeneric(z.parsed) && TagCollections.IsGeneric(w.parsed) ==> NoArchitectures({f, z, w})
  {
  }

  lemma AllThree(f: RSPImage, z: RSPImage, w: RSPImage, reg: Registry)
    requires ImageOk(f, reg) && ImageOk(z, reg) && ImageOk(w, reg)
    ensures AllOk({f, z, w}, reg)
  {
    hide ImageOk;
  }
}
