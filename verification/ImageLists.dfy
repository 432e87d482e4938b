/** Lists of images: the by-tag and by-type indexes that a collection of images keeps. */
module ImageLists {
  import opened TagOrder
  import opened Images
  import TagCollections

  ghost function SetOf(images: seq<RSPImage>): set<RSPImage> {
    set i | i in images
  }

  ghost predicate DistinctTags(images: seq<RSPImage>) {
    forall a, b | 0 <= a < b < |images| :: images[a].tag != images[b].tag
  }

  /** No two images have the same tag. */
  ghost predicate TagsApart(images: set<RSPImage>) {
    forall i, j | i in images && j in images && i.tag == j.tag :: i == j
  }

  lemma SetOfGrows(images: seq<RSPImage>, n: nat)
    requires n < |images|
    ensures SetOf(images[..n + 1]) == SetOf(images[..n]) + {images[n]}
    ensures SetOf(images[..n]) <= SetOf(images) && images[n] in SetOf(images)
  {
    assert images[..n + 1] == images[..n] + [images[n]];
  }

  lemma DistinctApart(images: seq<RSPImage>)
    requires DistinctTags(images)
    ensures TagsApart(SetOf(images))
  {
  }

  lemma OnceDistinct(images: seq<RSPImage>)
    requires TagsApart(SetOf(images)) && forall i | i in images :: multiset(images)[i] == 1
    ensures DistinctTags(images)
  {
    forall a, b | 0 <= a < b < |images| ensures images[a].tag != images[b].tag {
      assert images[a] in SetOf(images) && images[b] in SetOf(images);
      if images[a] == images[b] {
        TwiceCounts(images, a, b);
      }
    }
  }

  lemma SetOfNone()
    ensures SetOf([]) == {}
  {
  }

  lemma SetOfMember(images: seq<RSPImage>, n: nat)
    requires n < |images|
    ensures images[n] in SetOf(images)
  {
  }

  lemma SetOfNext(images: seq<RSPImage>, n: nat)
    requires n < |images| && DistinctTags(images)
    ensures SetOf(images[..n + 1]) == SetOf(images[..n]) + {images[n]}
    ensures images[n] !in SetOf(images[..n])
    ensures SetOf(images[..n]) <= SetOf(images) && images[n] in SetOf(images)
  {
    assert images[..n + 1] == images[..n] + [images[n]];
  }

  lemma FewerDistinct(images: seq<RSPImage>, n: nat)
    requires n <= |images| && DistinctTags(images)
    ensures DistinctTags(images[..n])
  {
  }

  lemma {:induction false} DistinctOnce(images: seq<RSPImage>)
    requires DistinctTags(images)
    ensures multiset(images) == multiset(SetOf(images))
  {
    if images != [] {
      var n := |images| - 1;
      hide DistinctTags, SetOf;
      FewerDistinct(images, n);
      DistinctOnce(images[..n]);
      SetOfNext(images, n);
      assert images[..n + 1] == images == images[..n] + [images[n]];
    }
  }

  lemma {:induction false} CountsTwice(images: seq<RSPImage>, i: RSPImage) returns (a: nat, b: nat)
    requires multiset(images)[i] >= 2
    ensures a < b < |images| && images[a] == images[b] == i
  {
    var n := |images| - 1;
    assert images == images[..n] + [images[n]];
    if images[n] == i {
      b := n;
      assert i in images[..n];
      a :| 0 <= a < n && images[..n][a] == i;
    } else {
      a, b := CountsTwice(images[..n], i);
    }
  }

  lemma TwiceCounts(images: seq<RSPImage>, a: nat, b: nat)
    requires a < b < |images| && images[a] == images[b]
    ensures multiset(images)[images[a]] >= 2
  {
    assert images == images[..b] + images[b..];
    assert images[a] in images[..b] && images[b] in images[b..];
  }

  // ----- sorting by what the images carry right now

  function KeyOfPair(p: (Tag, RSPImage)): Tag {
    p.0
  }

  /** Newest first by what the images are sorted by right now. */
  ghost predicate NewestFirst(images: seq<RSPImage>)
    reads images
  {
    forall a, b | 0 <= a < b < |images| :: Compare(images[b].Key(), images[a].Key()) <= 0
  }

  function Seconds(pairs: seq<(Tag, RSPImage)>): (r: seq<RSPImage>)
    ensures |r| == |pairs| && forall k | 0 <= k < |pairs| :: r[k] == pairs[k].1
  {
    seq(|pairs|, k requires 0 <= k < |pairs| => pairs[k].1)
  }

  lemma {:induction false} InsertSeconds(p: (Tag, RSPImage), s: seq<(Tag, RSPImage)>)
    ensures multiset(Seconds(Insert(p, s, KeyOfPair))) == multiset(Seconds(s)) + multiset{p.1}
  {
    if s == [] || Compare(KeyOfPair(s[0]), KeyOfPair(p)) <= 0 {
      assert Seconds([p] + s) == [p.1] + Seconds(s);
    } else {
      InsertSeconds(p, s[1..]);
      assert Seconds([s[0]] + Insert(p, s[1..], KeyOfPair)) == [s[0].1] + Seconds(Insert(p, s[1..], KeyOfPair));
      assert Seconds(s) == [s[0].1] + Seconds(s[1..]);
    }
  }

  lemma {:induction false} SortSeconds(s: seq<(Tag, RSPImage)>)
    ensures multiset(Seconds(SortDescending(s, KeyOfPair))) == multiset(Seconds(s))
  {
    if s != [] {
      SortSeconds(s[1..]);
      InsertSeconds(s[0], SortDescending(s[1..], KeyOfPair));
      assert Seconds(s) == [s[0].1] + Seconds(s[1..]);
    }
  }

  lemma PairsSorted(pairs: seq<(Tag, RSPImage)>, sorted: seq<(Tag, RSPImage)>, t: ImageType)
    requires sorted == SortDescending(pairs, KeyOfPair)
    requires forall p | p in pairs :: WellParsed(p.0) && p.0.imageType == t && p.0 == p.1.Key()
    ensures NewestFirst(Seconds(sorted))
  {
    SortSorts(pairs, KeyOfPair);
    forall k | 0 <= k < |sorted| ensures sorted[k] in pairs {
      InSorted(sorted[k], pairs, KeyOfPair);
    }
    var series := Seconds(sorted);
    forall a, b | 0 <= a < b < |series| ensures Compare(series[b].Key(), series[a].Key()) <= 0 {
      assert Compare(KeyOfPair(sorted[b]), KeyOfPair(sorted[a])) <= 0;
    }
  }

  ghost predicate InSeries(images: seq<RSPImage>, t: ImageType)
    reads images
  {
    forall i | i in images :: i.imageType == t && WellParsed(i.Key())
  }

  /** `sort(reverse=True)` on a list of images. */
  method Sorted(images: seq<RSPImage>) returns (series: seq<RSPImage>)
    ensures multiset(series) == multiset(images)
    ensures forall t | InSeries(images, t) :: NewestFirst(series)
  {
    hide Compare, WellParsed;
    var pairs: seq<(Tag, RSPImage)> := [];
    for n := 0 to |images|
      invariant |pairs| == n
      invariant forall k | 0 <= k < n :: pairs[k] == (images[k].Key(), images[k])
    {
      pairs := pairs + [(images[n].Key(), images[n])];
    }
    series := Seconds(SortDescending(pairs, KeyOfPair));
    assert Seconds(pairs) == images;
    SortSeconds(pairs);
    forall t | InSeries(images, t) ensures NewestFirst(series) {
      assert forall p | p in pairs :: p.1 in images;
      PairsSorted(pairs, SortDescending(pairs, KeyOfPair), t);
    }
  }

  // ----- the lists by type

  /** The images of one type, in the order they come. */
  ghost function OfTypeNow(images: seq<RSPImage>, t: ImageType): seq<RSPImage>
    reads images
  {
    if images == [] then []
    else
      var n := |images| - 1;
      OfTypeNow(images[..n], t) + (if images[n].imageType == t then [images[n]] else [])
  }

  lemma {:induction false} OfTypeCounts(images: seq<RSPImage>, t: ImageType, i: RSPImage)
    ensures multiset(OfTypeNow(images, t))[i] == if i.imageType == t then multiset(images)[i] else 0
  {
    if images != [] {
      var n := |images| - 1;
      OfTypeCounts(images[..n], t, i);
      assert images == images[..n] + [images[n]];
    }
  }

  method ChooseType(images: seq<RSPImage>, t: ImageType) returns (chosen: seq<RSPImage>)
    ensures chosen == OfTypeNow(images, t)
  {
    chosen := [];
    for n := 0 to |images|
      invariant chosen == OfTypeNow(images[..n], t)
    {
      assert images[..n + 1][..n] == images[..n];
      if images[n].imageType == t {
        chosen := chosen + [images[n]];
      }
    }
    assert images[..|images|] == images;
  }

  lemma {:induction false} OfTypeIsSeries(images: seq<RSPImage>, t: ImageType)
    requires forall i | i in images :: WellParsed(i.Key())
    ensures InSeries(OfTypeNow(images, t), t)
  {
    hide WellParsed;
    if images != [] {
      OfTypeIsSeries(images[..|images| - 1], t);
    }
  }

  /** The sorted list of one type. */
  method SortedSeries(images: seq<RSPImage>, t: ImageType) returns (series: seq<RSPImage>)
    ensures multiset(series) == multiset(OfTypeNow(images, t))
    ensures (forall i | i in images :: WellParsed(i.Key())) ==> NewestFirst(series)
  {
    hide WellParsed, NewestFirst, OfTypeNow, InSeries;
    var chosen := ChooseType(images, t);
    series := Sorted(chosen);
    if forall i | i in images :: WellParsed(i.Key()) {
      OfTypeIsSeries(images, t);
    }
  }

  const KINDS: nat := 7

  /** The types, in the order they are listed. */
  function TypeAt(n: nat): ImageType
    requires n < KINDS
  {
    IMAGE_TYPES[n]
  }

  /** Where a type stands among `IMAGE_TYPES`. */
  function Rank(t: ImageType): (r: nat)
    ensures r < KINDS
  {
    match t
    case Alias => 0
    case Release => 1
    case Weekly => 2
    case Daily => 3
    case Candidate => 4
    case Experimental => 5
    case Unknown => 6
  }

  lemma RankIsPlace(t: ImageType, n: nat)
    requires n < KINDS
    ensures TypeAt(n) == t <==> n == Rank(t)
  {
  }

  function ListOf(byType: map<ImageType, seq<RSPImage>>, t: ImageType): seq<RSPImage> {
    if t in byType then byType[t] else []
  }

  /** The lists of the first `n` types, one after the other. */
  function Listing(byType: map<ImageType, seq<RSPImage>>, n: nat): seq<RSPImage>
    requires n <= KINDS
  {
    if n == 0 then [] else Listing(byType, n - 1) + ListOf(byType, TypeAt(n - 1))
  }

  function Everything(byType: map<ImageType, seq<RSPImage>>): seq<RSPImage> {
    Listing(byType, KINDS)
  }

  lemma {:induction false} ListingCounts(byType: map<ImageType, seq<RSPImage>>, images: seq<RSPImage>, n: nat, i: RSPImage)
    requires n <= KINDS
    requires forall t: ImageType :: multiset(ListOf(byType, t)) == multiset(OfTypeNow(images, t))
    ensures multiset(Listing(byType, n))[i] == if Rank(i.imageType) < n then multiset(images)[i] else 0
  {
    hide TypeAt, Rank, OfTypeNow, ListOf;
    if n > 0 {
      var t := TypeAt(n - 1);
      ListingCounts(byType, images, n - 1, i);
      OfTypeCounts(images, t, i);
      RankIsPlace(i.imageType, n - 1);
      assert multiset(ListOf(byType, t)) == multiset(OfTypeNow(images, t));
    }
  }

  lemma EverythingListed(byType: map<ImageType, seq<RSPImage>>, images: seq<RSPImage>)
    requires forall t: ImageType :: multiset(ListOf(byType, t)) == multiset(OfTypeNow(images, t))
    ensures multiset(Everything(byType)) == multiset(images)
    ensures forall t | t in byType :: forall i | i in byType[t] :: i.imageType == t
  {
    hide TypeAt, Rank, OfTypeNow, Listing;
    forall i | i in Everything(byType) + images ensures multiset(Everything(byType))[i] == multiset(images)[i] {
      ListingCounts(byType, images, KINDS, i);
    }
    forall t, i | t in byType && i in byType[t] ensures i.imageType == t {
      OfTypeCounts(images, t, i);
      assert i in multiset(ListOf(byType, t));
    }
  }

  /** Whether one image comes before another in a menu, or as early: by type, then newest first. */
  predicate MenuBefore(a: RSPImage, b: RSPImage)
    reads a, b
  {
    Rank(a.imageType) < Rank(b.imageType) || (a.imageType == b.imageType && Compare(b.Key(), a.Key()) <= 0)
  }

  ghost predicate InMenuOrder(images: seq<RSPImage>)
    reads images
  {
    forall a, b | 0 <= a < b < |images| :: MenuBefore(images[a], images[b])
  }

  lemma {:induction false} ListingOrdered(byType: map<ImageType, seq<RSPImage>>, n: nat)
    requires n <= KINDS
    requires forall t | t in byType :: NewestFirst(byType[t]) && forall i | i in byType[t] :: i.imageType == t
    ensures InMenuOrder(Listing(byType, n))
    ensures forall i | i in Listing(byType, n) :: Rank(i.imageType) < n
  {
    hide Compare, TypeAt, Rank;
    if n > 0 {
      ListingOrdered(byType, n - 1);
      var before, list := Listing(byType, n - 1), ListOf(byType, TypeAt(n - 1));
      RankIsPlace(TypeAt(n - 1), n - 1);
      assert forall i | i in list :: Rank(i.imageType) == n - 1;
      forall a, b | 0 <= a < b < |before + list| ensures MenuBefore((before + list)[a], (before + list)[b]) {
        if b < |before| {
          assert MenuBefore(before[a], before[b]);
        } else if a < |before| {
          assert before[a] in before && list[b - |before|] in list;
        } else {
          assert list[a - |before|] in list && list[b - |before|] in list;
        }
      }
    }
  }

  /** The constructor of the tag collection, as far as the types go. */
  method SeriesByType(images: seq<RSPImage>) returns (byType: map<ImageType, seq<RSPImage>>)
    ensures multiset(Everything(byType)) == multiset(images)
    ensures forall t | t in byType :: forall i | i in byType[t] :: i.imageType == t
    ensures (forall i | i in images :: WellParsed(i.Key())) ==> forall t | t in byType :: NewestFirst(byType[t])
  {
    hide NewestFirst, WellParsed, OfTypeNow, TypeAt, Rank, Listing;
    byType := map[];
    for n := 0 to KINDS
      invariant forall m | 0 <= m < n :: multiset(ListOf(byType, TypeAt(m))) == multiset(OfTypeNow(images, TypeAt(m)))
      invariant (forall i | i in images :: WellParsed(i.Key())) ==> forall t | t in byType :: NewestFirst(byType[t])
    {
      var series := SortedSeries(images, TypeAt(n));
      byType := byType[TypeAt(n) := series];
    }
    forall t: ImageType ensures multiset(ListOf(byType, t)) == multiset(OfTypeNow(images, t)) {
      RankIsPlace(t, Rank(t));
    }
    EverythingListed(byType, images);
  }

  lemma {:induction false} ListingBefore(byType: map<ImageType, seq<RSPImage>>, t: ImageType, series: seq<RSPImage>, n: nat)
    requires n <= Rank(t)
    ensures Listing(byType[t := series], n) == Listing(byType, n)
  {
    hide TypeAt, Rank;
    if n > 0 {
      ListingBefore(byType, t, series, n - 1);
      RankIsPlace(t, n - 1);
    }
  }

  lemma {:induction false} ListingAfter(byType: map<ImageType, seq<RSPImage>>, t: ImageType, series: seq<RSPImage>, n: nat)
    requires Rank(t) < n <= KINDS
    ensures multiset(Listing(byType[t := series], n)) + multiset(ListOf(byType, t))
         == multiset(Listing(byType, n)) + multiset(series)
  {
    hide TypeAt, Rank, Listing;
    var after := byType[t := series];
    RankIsPlace(t, n - 1);
    ListingNext(byType, n);
    ListingNext(after, n);
    if Rank(t) == n - 1 {
      ListingBefore(byType, t, series, n - 1);
    } else {
      ListingAfter(byType, t, series, n - 1);
      var same := multiset(ListOf(byType, TypeAt(n - 1)));
      assert multiset(Listing(after, n)) + multiset(ListOf(byType, t))
          == multiset(Listing(after, n - 1)) + multiset(ListOf(byType, t)) + same;
      assert multiset(Listing(byType, n)) + multiset(series) == multiset(Listing(byType, n - 1)) + multiset(series) + same;
    }
  }

  lemma ListingSplit(byType: map<ImageType, seq<RSPImage>>, n: nat)
    requires 0 < n <= KINDS
    ensures Listing(byType, n) == Listing(byType, n - 1) + ListOf(byType, TypeAt(n - 1))
  {
  }

  lemma ListingNext(byType: map<ImageType, seq<RSPImage>>, n: nat)
    requires 0 < n <= KINDS
    ensures multiset(Listing(byType, n)) == multiset(Listing(byType, n - 1)) + multiset(ListOf(byType, TypeAt(n - 1)))
  {
  }

  /**
   The members are the images that the by-type index lists, and the by-tag index has one of
   them for each of their tags.
   */
  ghost predicate IndexOk(byTag: map<string, RSPImage>, byType: map<ImageType, seq<RSPImage>>, members: set<RSPImage>) {
    && members == SetOf(Everything(byType))
    && (forall t | t in byTag :: byTag[t].tag == t && byTag[t] in members)
    && (forall i | i in members :: i.tag in byTag)
  }

  /** The by-type index lists no image twice. */
  ghost predicate ListedOnce(byType: map<ImageType, seq<RSPImage>>) {
    multiset(Everything(byType)) == multiset(SetOf(Everything(byType)))
  }

  lemma SameCounts(a: seq<RSPImage>, b: seq<RSPImage>)
    requires multiset(a) == multiset(b)
    ensures SetOf(a) == SetOf(b)
  {
    assert forall i | i in a :: i in multiset(b);
    assert forall i | i in b :: i in multiset(a);
  }

  lemma CountedOnce(byType: map<ImageType, seq<RSPImage>>, images: seq<RSPImage>)
    requires multiset(Everything(byType)) == multiset(images) && DistinctTags(images)
    ensures ListedOnce(byType) && forall i | i in images :: multiset(images)[i] == 1
  {
    hide Listing;
    DistinctOnce(images);
    SameCounts(Everything(byType), images);
    forall i | i in images ensures multiset(images)[i] == 1 {
      assert i in SetOf(images);
    }
  }

  lemma IndexLists(byTag: map<string, RSPImage>, byType: map<ImageType, seq<RSPImage>>, members: set<RSPImage>)
    requires IndexOk(byTag, byType, members)
    ensures SetOf(Everything(byType)) == members && byTag.Values <= members
    ensures ListedOnce(byType) && TagsApart(members) <==> DistinctTags(Everything(byType))
    ensures TagsApart(members) ==> forall i | i in members :: byTag[i.tag] == i
  {
    hide Listing;
    var all := Everything(byType);
    if DistinctTags(all) {
      DistinctOnce(all);
      DistinctApart(all);
    }
    if ListedOnce(byType) && TagsApart(members) {
      forall i | i in all ensures multiset(all)[i] == 1 {
        assert i in SetOf(all);
      }
      OnceDistinct(all);
    }
  }

  /** One more image in both indexes: `RSPImageTagCollection.add`. */
  method Indexed(byTag: map<string, RSPImage>, byType: map<ImageType, seq<RSPImage>>, image: RSPImage, ghost members: set<RSPImage>)
    returns (byTag': map<string, RSPImage>, byType': map<ImageType, seq<RSPImage>>)
    requires IndexOk(byTag, byType, members)
    ensures byTag' == byTag[image.tag := image] && IndexOk(byTag', byType', members + {image})
    ensures ListedOnce(byType) && image !in members ==> ListedOnce(byType')
    ensures multiset(Everything(byType')) == multiset(Everything(byType)) + multiset{image}
    ensures forall t | t != image.imageType :: ListOf(byType', t) == ListOf(byType, t)
    ensures multiset(ListOf(byType', image.imageType)) == multiset(ListOf(byType, image.imageType)) + multiset{image}
    ensures forall t | InSeries(ListOf(byType, image.imageType) + [image], t) :: NewestFirst(ListOf(byType', image.imageType))
  {
    hide InSeries, NewestFirst, IndexOk, ListedOnce;
    var series := Sorted(ListOf(byType, image.imageType) + [image]);
    byTag', byType' := byTag[image.tag := image], byType[image.imageType := series];
    OneMoreListed(byType, image, image.imageType, series);
    StillIndexed(byTag, byType, image, byType', members);
  }

  lemma OneMoreListed(byType: map<ImageType, seq<RSPImage>>, image: RSPImage, t: ImageType, series: seq<RSPImage>)
    requires multiset(series) == multiset(ListOf(byType, t) + [image])
    ensures multiset(Everything(byType[t := series])) == multiset(Everything(byType)) + multiset{image}
  {
    hide Listing, Rank, ListOf;
    var once, was := multiset{image}, multiset(ListOf(byType, t));
    var all, after := Everything(byType), Everything(byType[t := series]);
    ListingAfter(byType, t, series, KINDS);
    assert multiset(series) == was + once;
    assert multiset(after) + was == multiset(all) + once + was;
    Cancel(multiset(after), multiset(all) + once, was);
  }

  lemma StillIndexed(byTag: map<string, RSPImage>, byType: map<ImageType, seq<RSPImage>>, image: RSPImage,
                     after: map<ImageType, seq<RSPImage>>, members: set<RSPImage>)
    requires IndexOk(byTag, byType, members) && multiset(Everything(after)) == multiset(Everything(byType)) + multiset{image}
    ensures IndexOk(byTag[image.tag := image], after, members + {image})
    ensures ListedOnce(byType) && image !in members ==> ListedOnce(after)
  {
    hide Listing;
    var all := Everything(byType);
    assert multiset(all + [image]) == multiset(all) + multiset{image};
    SameCounts(Everything(after), all + [image]);
    Appended(all, image);
    if image !in members {
      assert multiset(members + {image}) == multiset(members) + multiset{image};
    }
  }

  lemma Cancel<T>(a: multiset<T>, b: multiset<T>, c: multiset<T>)
    requires a + c == b + c
    ensures a == b
  {
    assert a == (a + c) - c;
    assert b == (b + c) - c;
  }

  /** An index by tag of a list: of the images of one tag it has the one listed last. */
  ghost predicate IndexesTags(byTag: map<string, RSPImage>, images: seq<RSPImage>) {
    && (forall t | t in byTag :: byTag[t].tag == t && byTag[t] in SetOf(images))
    && (forall i | i in SetOf(images) :: i.tag in byTag)
    && (forall n | 0 <= n < |images| && IsLast(images, n) :: byTag[images[n].tag] == images[n])
  }

  /** No image listed later has this one's tag. */
  ghost predicate IsLast(images: seq<RSPImage>, n: nat)
    requires n < |images|
  {
    forall m | n < m < |images| :: images[m].tag != images[n].tag
  }

  /** The image is the last listed under its tag. */
  ghost predicate Found(images: seq<RSPImage>, i: RSPImage) {
    exists n | 0 <= n < |images| :: images[n] == i && IsLast(images, n)
  }

  lemma {:induction false} LastListed(images: seq<RSPImage>, tag: string) returns (n: nat)
    requires exists i | i in images :: i.tag == tag
    ensures n < |images| && images[n].tag == tag && IsLast(images, n)
  {
    n := |images| - 1;
    if images[n].tag != tag {
      var i :| i in images && i.tag == tag;
      assert images == images[..n] + [images[n]];
      assert i in images[..n];
      n := LastListed(images[..n], tag);
    }
  }

  lemma FoundIs(byTag: map<string, RSPImage>, images: seq<RSPImage>, i: RSPImage)
    requires IndexesTags(byTag, images) && i in SetOf(images)
    ensures i.tag in byTag && (byTag[i.tag] == i <==> Found(images, i))
  {
    if byTag[i.tag] == i {
      var n := LastListed(images, i.tag);
    }
  }

  lemma IndexesNext(byTag: map<string, RSPImage>, images: seq<RSPImage>, n: nat)
    requires n < |images| && IndexesTags(byTag, images[..n])
    ensures IndexesTags(byTag[images[n].tag := images[n]], images[..n + 1])
  {
    SetOfGrows(images, n);
    var after, more := byTag[images[n].tag := images[n]], images[..n + 1];
    forall m | 0 <= m < |more| && IsLast(more, m) ensures more[m].tag in after && after[more[m].tag] == more[m] {
      if m < n {
        assert more[n].tag != more[m].tag;
        assert images[..n][m] == more[m] && more[m] in SetOf(images[..n]);
        forall k | m < k < n ensures images[..n][k].tag != images[..n][m].tag {
          assert more[k] == images[..n][k];
        }
        assert IsLast(images[..n], m);
      }
    }
  }

  /** Where no two images have one tag, the index has them all. */
  lemma IndexesAllTags(byTag: map<string, RSPImage>, images: seq<RSPImage>)
    requires IndexesTags(byTag, images)
    ensures TagsApart(SetOf(images)) ==> forall i | i in SetOf(images) :: i.tag in byTag && byTag[i.tag] == i
  {
    hide IsLast;
    assert forall i | i in SetOf(images) :: byTag[i.tag] in SetOf(images) && byTag[i.tag].tag == i.tag;
  }

  /** The by-tag index of a list. */
  method IndexTags(images: seq<RSPImage>) returns (byTag: map<string, RSPImage>)
    ensures IndexesTags(byTag, images)
  {
    hide IndexesTags;
    byTag := map[];
    assert images[..0] == [];
    IndexesNone();
    for n := 0 to |images|
      invariant IndexesTags(byTag, images[..n])
    {
      IndexesNext(byTag, images, n);
      byTag := byTag[images[n].tag := images[n]];
    }
    assert images[..|images|] == images;
  }

  lemma IndexesNone()
    ensures IndexesTags(map[], [])
  {
  }

  // ----- choosing among listed images

  /** The images of a list that are in a set, in the order of the list. */
  function Among(images: seq<RSPImage>, keep: set<RSPImage>): seq<RSPImage> {
    if images == [] then []
    else
      var n := |images| - 1;
      Among(images[..n], keep) + (if images[n] in keep then [images[n]] else [])
  }

  lemma AmongNext(images: seq<RSPImage>, n: nat, keep: set<RSPImage>)
    requires n < |images|
    ensures Among(images[..n + 1], keep) == Among(images[..n], keep) + (if images[n] in keep then [images[n]] else [])
  {
    assert images[..n + 1][..n] == images[..n];
  }

  lemma AmongNone(keep: set<RSPImage>)
    ensures Among([], keep) == []
  {
  }

  lemma Appended(images: seq<RSPImage>, image: RSPImage)
    ensures SetOf(images + [image]) == SetOf(images) + {image}
    ensures DistinctTags(images) && (forall i | i in SetOf(images) :: i.tag != image.tag) ==> DistinctTags(images + [image])
  {
    forall i | i in images ensures i in SetOf(images) {
    }
  }

  lemma WithoutLast(images: seq<RSPImage>)
    requires images != [] && DistinctTags(images)
    ensures var n := |images| - 1;
            && images == images[..n] + [images[n]] && DistinctTags(images[..n])
            && forall i | i in SetOf(images[..n]) :: i.tag != images[n].tag
  {
    var n := |images| - 1;
    forall i | i in SetOf(images[..n]) ensures i.tag != images[n].tag {
      var m :| 0 <= m < n && images[m] == i;
    }
  }

  lemma {:induction false} AmongAre(images: seq<RSPImage>, keep: set<RSPImage>)
    requires DistinctTags(images)
    ensures DistinctTags(Among(images, keep)) && SetOf(Among(images, keep)) == SetOf(images) * keep
    ensures SetOf(images) <= keep ==> Among(images, keep) == images
  {
    hide DistinctTags, SetOf;
    if images == [] {
      SetOfNone();
      AmongNone(keep);
    } else {
      var n := |images| - 1;
      WithoutLast(images);
      AmongAre(images[..n], keep);
      var before := Among(images[..n], keep);
      Appended(images[..n], images[n]);
      Appended(before, images[n]);
      assert Among(images, keep) == if images[n] in keep then before + [images[n]] else before;
    }
  }

  lemma {:induction false} AmongContains(images: seq<RSPImage>, keep: set<RSPImage>, i: RSPImage)
    ensures i in Among(images, keep) <==> i in images && i in keep
  {
    if images != [] {
      var n := |images| - 1;
      AmongContains(images[..n], keep, i);
      assert images == images[..n] + [images[n]];
    }
  }

  lemma {:induction false} AmongCounts(images: seq<RSPImage>, keep: set<RSPImage>, i: RSPImage)
    ensures multiset(Among(images, keep))[i] == if i in keep then multiset(images)[i] else 0
  {
    if images != [] {
      var n := |images| - 1;
      AmongCounts(images[..n], keep, i);
      assert images == images[..n] + [images[n]];
    }
  }

  lemma {:induction false} AmongAll(images: seq<RSPImage>, keep: set<RSPImage>)
    requires SetOf(images) <= keep
    ensures Among(images, keep) == images
  {
    if images != [] {
      var n := |images| - 1;
      SetOfGrows(images, n);
      AmongAll(images[..n], keep);
      assert images == images[..n] + [images[n]];
    }
  }

  lemma AmongSet(images: seq<RSPImage>, keep: set<RSPImage>)
    ensures SetOf(Among(images, keep)) == SetOf(images) * keep
  {
    hide Among;
    var chosen := Among(images, keep);
    forall i | i in SetOf(chosen) ensures i in SetOf(images) * keep {
      AmongContains(images, keep, i);
    }
    forall i | i in SetOf(images) * keep ensures i in SetOf(chosen) {
      AmongContains(images, keep, i);
    }
  }

  lemma {:induction false} AmongPrefix(images: seq<RSPImage>, n: nat, keep: set<RSPImage>)
    requires n <= |images|
    ensures Among(images[..n], keep) <= Among(images, keep)
  {
    if n < |images| {
      var m := |images| - 1;
      AmongPrefix(images[..m], n, keep);
      assert images[..m][..n] == images[..n];
    } else {
      assert images[..n] == images;
    }
  }

  /** The images that may be shown: not those for one architecture, if these are to be hidden. */
  ghost function Shown(images: set<RSPImage>, hideArch: bool): set<RSPImage>
    reads images`architecture
  {
    set i | i in images && (hideArch ==> i.IsGeneric())
  }

  ghost function Visible(images: seq<RSPImage>, hideArch: bool): seq<RSPImage>
    reads images`architecture
  {
    Among(images, Shown(SetOf(images), hideArch))
  }

  lemma VisibleIn(images: seq<RSPImage>, hideArch: bool)
    ensures SetOf(Visible(images, hideArch)) <= SetOf(images)
  {
    AmongSet(images, Shown(SetOf(images), hideArch));
  }

  lemma AllVisible(images: seq<RSPImage>)
    ensures Visible(images, false) == images
  {
    AmongAll(images, Shown(SetOf(images), false));
  }

  /** The first images of a list that may be shown; none if none are asked for. */
  ghost function FirstOf(images: seq<RSPImage>, total: nat, removeArch: bool): seq<RSPImage>
    reads images
  {
    var shown := Visible(images, removeArch);
    if |shown| <= total then shown else shown[..total]
  }

  // ----- what is chosen, in terms of the tag collection

  /** What the images are sorted by right now. */
  ghost function Keys(images: seq<RSPImage>): (keys: seq<Tag>)
    reads images
    ensures |keys| == |images|
  {
    if images == [] then [] else Keys(images[..|images| - 1]) + [images[|images| - 1].Key()]
  }

  lemma {:induction false} KeysPrefix(images: seq<RSPImage>, n: nat)
    requires n <= |images|
    ensures Keys(images[..n]) == Keys(images)[..n]
  {
    if n == |images| {
      assert images[..n] == images;
    } else {
      var m := |images| - 1;
      KeysPrefix(images[..m], n);
      assert images[..m][..n] == images[..n];
    }
  }

  lemma {:induction false} AmongKeys(images: seq<RSPImage>, keep: set<RSPImage>, hideArch: bool)
    requires forall i | i in images :: i in keep <==> (hideArch ==> i.IsGeneric())
    ensures Keys(Among(images, keep)) == TagCollections.Candidates(Keys(images), hideArch)
  {
    if images != [] {
      var n := |images| - 1;
      AmongKeys(images[..n], keep, hideArch);
      assert images[n].IsGeneric() == TagCollections.IsGeneric(images[n].Key());
      TagCollections.GenericAppend(Keys(images[..n]), images[n].Key());
      var before := Among(images[..n], keep);
      assert (before + [images[n]])[..|before|] == before;
      assert Among(images, keep) == if images[n] in keep then before + [images[n]] else before;
      assert images[n] in images;
    }
  }

  /** Choosing among images is choosing among the tags they carry. */
  lemma KeysOfFirst(images: seq<RSPImage>, total: nat, removeArch: bool)
    ensures Keys(Visible(images, removeArch)) == TagCollections.Candidates(Keys(images), removeArch)
    ensures Keys(FirstOf(images, total, removeArch)) == TagCollections.First(Keys(images), total, removeArch)
  {
    var keep := Shown(SetOf(images), removeArch);
    forall i | i in images ensures i in keep <==> (removeArch ==> i.IsGeneric()) {
      assert i in SetOf(images);
    }
    AmongKeys(images, keep, removeArch);
    var shown := Visible(images, removeArch);
    if total < |shown| {
      KeysPrefix(shown, total);
    }
  }

  lemma {:induction false} AmongIsOrdered(images: seq<RSPImage>, keep: set<RSPImage>)
    requires NewestFirst(images)
    ensures NewestFirst(Among(images, keep))
  {
    hide Compare;
    if images != [] {
      var n := |images| - 1;
      AmongIsOrdered(images[..n], keep);
      var before := Among(images[..n], keep);
      forall a | 0 <= a < |before| ensures Compare(images[n].Key(), before[a].Key()) <= 0 {
        AmongContains(images[..n], keep, before[a]);
        var m :| 0 <= m < n && images[..n][m] == before[a];
        assert images[m] == before[a];
      }
    }
  }

  /** A count takes of a sorted list only what may be shown, and leaves an image out only if it takes as many as asked for, none of them older. */
  lemma FirstImagesAreTheGreatest(images: seq<RSPImage>, total: nat, removeArch: bool, i: RSPImage)
    requires NewestFirst(images)
    ensures var first := FirstOf(images, total, removeArch);
            && |first| <= total
            && (i in first ==> i in images && (removeArch ==> i.architecture.GetOr("") == ""))
            && (i in images && (removeArch ==> i.architecture.GetOr("") == "") && i !in first ==>
                  |first| == total && forall taken | taken in first :: Compare(i.Key(), taken.Key()) <= 0)
  {
    hide Compare, Among;
    var keep, shown := Shown(SetOf(images), removeArch), Visible(images, removeArch);
    var first := FirstOf(images, total, removeArch);
    AmongIsOrdered(images, keep);
    AmongContains(images, keep, i);
    if i in first {
      assert i in shown;
    } else if i in images && (removeArch ==> i.IsGeneric()) {
      assert i in SetOf(images) && i in shown;
      var j :| 0 <= j < |shown| && shown[j] == i;
      forall taken | taken in first ensures Compare(i.Key(), taken.Key()) <= 0 {
        var k :| 0 <= k < total && shown[k] == taken;
        assert forall m | 0 <= m < total :: shown[..total][m] == shown[m];
      }
    }
  }

  /** `_first_tags` */
  method FirstImages(series: seq<RSPImage>, total: nat, removeArch: bool) returns (chosen: seq<RSPImage>)
    ensures chosen == FirstOf(series, total, removeArch)
  {
    chosen := [];
    if total == 0 {
      return;
    }
    ghost var keep := Shown(SetOf(series), removeArch);
    for n := 0 to |series|
      invariant chosen == Among(series[..n], keep) && |chosen| < total
    {
      AmongNext(series, n, keep);
      if !(removeArch && !series[n].IsGeneric()) {
        chosen := chosen + [series[n]];
        if |chosen| >= total {
          AmongPrefix(series, n + 1, keep);
          return;
        }
      }
    }
    assert series[..|series|] == series;
  }

  lemma {:induction false} ListingPrefix(byType: map<ImageType, seq<RSPImage>>, n: nat, m: nat)
    requires n <= m <= KINDS
    ensures Listing(byType, n) <= Listing(byType, m)
  {
    hide TypeAt, ListOf;
    if n < m {
      ListingPrefix(byType, n, m - 1);
    }
  }

  /** `all_tags` */
  method AllImages(byType: map<ImageType, seq<RSPImage>>, hideArch: bool) returns (all: seq<RSPImage>)
    ensures all == old(Visible(Everything(byType), hideArch)) == Visible(Everything(byType), hideArch)
  {
    hide TypeAt, Among, ListOf;
    all := [];
    ghost var keep := Shown(SetOf(Everything(byType)), hideArch);
    AmongNone(keep);
    for n := 0 to KINDS
      invariant all == Among(Listing(byType, n), keep)
    {
      var list := ListOf(byType, TypeAt(n));
      ListingPrefix(byType, n + 1, KINDS);
      assert forall k | 0 <= k < |list| :: list[k] == Listing(byType, n + 1)[|Listing(byType, n)| + k];
      all := AppendShown(all, Listing(byType, n), list, SetOf(Everything(byType)), hideArch);
    }
  }

  /** The part of `all_tags` that goes through one list. */
  method AppendShown(all: seq<RSPImage>, ghost before: seq<RSPImage>, list: seq<RSPImage>, ghost images: set<RSPImage>, hideArch: bool)
    returns (more: seq<RSPImage>)
    requires all == Among(before, Shown(images, hideArch)) && forall i | i in list :: i in images
    ensures more == Among(before + list, Shown(images, hideArch))
  {
    more := all;
    assert before + list[..0] == before;
    for k := 0 to |list|
      invariant more == Among(before + list[..k], Shown(images, hideArch))
    {
      assert (before + list[..k + 1])[..|before| + k] == before + list[..k];
      if !(hideArch && !list[k].IsGeneric()) {
        more := more + [list[k]];
      }
    }
    assert list[..|list|] == list;
  }
}
