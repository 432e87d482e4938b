/** Collections of images indexed by tag, by type and by digest, and the aliases among them. */
module ImageIndex {
  import opened Wrappers
  import opened TagOrder
  import opened Images
  import opened ImageLists
  import opened ImageFronts
  import opened ImageClashes

  /** `RSPImageCollection` */
  class RSPImageCollection {
    var byTag: map<string, RSPImage>
    var byType: map<ImageType, seq<RSPImage>>
    var byDigest: map<string, RSPImage>
    var unresolved: map<string, seq<RSPImage>>
    ghost var members: set<RSPImage>

    /** `_unresolved_aliases[digest].append(image)` */
    method AppendUnresolved(image: RSPImage)
      modifies this`unresolved
      ensures unresolved.Keys == old(unresolved).Keys + {image.digest}
      ensures unresolved[image.digest] == (if image.digest in old(unresolved) then old(unresolved)[image.digest] else []) + [image]
      ensures forall d | d in old(unresolved) && d != image.digest :: unresolved[d] == old(unresolved)[d]
    {
      unresolved := unresolved[image.digest := (if image.digest in unresolved then unresolved[image.digest] else []) + [image]];
    }

    /** `_resolve_duplicate` when the new image may be an alias: the old one, which may be itself or have its tag, stays in front. */
    method FollowOld(added: RSPImage, rep: RSPImage, ghost universe: set<RSPImage>, ghost reg: Registry)
      returns (r: Result<(), ImageError>)
      requires TagsOk(byTag, universe) && added in universe && rep in universe && AllOk(universe, reg)
      requires added.digest == rep.digest && added.IsPossibleAlias() && (added.tag == rep.tag ==> rep.IsPossibleAlias())
      modifies this`unresolved
      modifies universe`aliases, added`imageType, added`aliasTarget, added`cycle, added`architecture, added`date
      ensures r.Ok? && AllOk(universe, Selfed(reg, added, rep))
      ensures forall i | i in universe :: old(i.aliases) <= i.aliases
      ensures forall i | i in universe && i.digest != rep.digest :: i.State() == old(i.State())
      ensures added.tag in rep.aliases && added.IsPossibleAlias()
      ensures forall i | i in HeldUnder(byTag, universe, old(rep.aliases) - {added.tag}) :: added.tag in i.aliases
      ensures if old(rep.IsPossibleAlias())
              then unresolved.Keys == old(unresolved).Keys + {rep.digest}
                   && unchanged(added`imageType) && unchanged(added`aliasTarget)
              else unresolved == old(unresolved) && added.imageType.Alias? && added.aliasTarget == Some(rep.tag)
      ensures old(NoArchitectures(universe)) ==> NoArchitectures(universe)
    {
      hide ImageOk;
      OwnDigest(added, reg);
      OwnDigest(rep, reg);
      if rep.IsPossibleAlias() {
        AddAlias(added, rep.tag, universe, reg);
        AddAlias(rep, added.tag, universe, if added.tag == rep.tag then reg.With(added) else reg);
        AppendUnresolved(added);
      } else {
        ResolveOne(added, rep, universe, reg);
      }
      r := SpreadAlias(byTag, rep, added, universe, Selfed(reg, added, rep));
    }

    /**
     `_resolve_duplicate` when the new image is no alias: it takes the old one's place, which
     may be its own or that of one with its tag. It fails exactly if the old one is its own
     alias and does not know the new one.
     */
    method ReplaceOld(added: RSPImage, outranked: RSPImage, ghost universe: set<RSPImage>, ghost reg: Registry)
      returns (r: Result<(), ImageError>)
      requires TagsOk(byTag, universe) && added in universe && outranked in universe && AllOk(universe, reg)
      requires added.digest == outranked.digest
      modifies this`byDigest
      modifies universe`aliases, universe`imageType, universe`aliasTarget, universe`cycle, universe`architecture, universe`date
      ensures r == (if old(Clash(byTag, added, outranked)) then Err(SetChangedDuringIteration) else Ok(()))
      ensures AllOk(universe, Selfed(reg, added, outranked))
      ensures Widened(old(Snapshot(universe)), Snapshot(universe), added.digest)
      ensures byDigest == if r.Ok? then old(byDigest)[added.digest := added] else old(byDigest)
      ensures r.Ok? ==> var held := HeldUnder(byTag, universe, old(outranked.aliases) - {added.tag});
                        Overtaken(old(Snapshot(universe)), Snapshot(universe), added, outranked, held, held + {outranked})
      ensures old(NoArchitectures(universe)) ==> NoArchitectures(universe)
    {
      hide *;
      r := Outrank(byTag, added, outranked, universe, reg);
      if r.Ok? {
        byDigest := byDigest[added.digest := added];
      }
    }

    /** One image of the first pass: the first of its digest stays in front. */
    method PlacePlain(image: RSPImage, ghost universe: set<RSPImage>, ghost reg: Registry)
      returns (r: Result<(), ImageError>)
      requires TagsOk(byTag, universe) && AllOk(universe, reg) && image in universe
      requires image.digest in byDigest ==>
                 var rep := byDigest[image.digest]; rep in universe && rep.digest == image.digest
      modifies this`byDigest
      modifies universe`aliases, universe`imageType, universe`aliasTarget, universe`cycle, universe`architecture, universe`date
      ensures r == (if image.digest in old(byDigest) && old(Clash(byTag, byDigest[image.digest], image))
                    then Err(SetChangedDuringIteration) else Ok(()))
      ensures AllOk(universe, if image.digest in old(byDigest) then Selfed(reg, old(byDigest)[image.digest], image) else reg)
      ensures Widened(old(Snapshot(universe)), Snapshot(universe), image.digest)
      ensures byDigest == if image.digest in old(byDigest) then old(byDigest) else old(byDigest)[image.digest := image]
      ensures image.digest !in old(byDigest) ==> Snapshot(universe) == old(Snapshot(universe))
      ensures image.digest in old(byDigest) && r.Ok? ==>
                var rep := old(byDigest)[image.digest];
                var held := HeldUnder(byTag, universe, old(image.aliases) - {rep.tag});
                Overtaken(old(Snapshot(universe)), Snapshot(universe), rep, image, held, held + {image})
      ensures old(NoArchitectures(universe)) ==> NoArchitectures(universe)
    {
      hide *;
      if image.digest in byDigest {
        var rep := byDigest[image.digest];
        r := ReplaceOld(rep, image, universe, reg);
        assert byDigest == old(byDigest);
      } else {
        WidenedNot(Snapshot(universe), image.digest);
        byDigest := byDigest[image.digest := image];
        r := Ok(());
      }
    }

    /** How far the first pass has come with a list. */
    ghost predicate PassReached(images: seq<RSPImage>, n: nat, before: map<RSPImage, Saved>, universe: set<RSPImage>, reg: Registry)
      requires n <= |images|
      reads this, universe, byDigest.Values
    {
      && TagsOk(byTag, universe) && IndexesTags(byTag, images)
      && SetOf(images) <= universe && TagsAlike(SetOf(images), PlainBefore(before))
      && before.Keys == universe && AllOk(universe, Resolved(reg, images[..n], byDigest))
      && (forall d | d in byDigest :: IsFirst(images, n, PlainBefore(before), d, byDigest[d]))
      && Covered(images, n, PlainBefore(before), byDigest, Known(byDigest))
      && PassWidened(images, before, Snapshot(universe))
      && PassKnows(images, n, before, Snapshot(universe), byDigest)
    }

    lemma PassStarts(images: seq<RSPImage>, universe: set<RSPImage>, reg: Registry)
      requires TagsOk(byTag, universe) && AllOk(universe, reg) && byDigest == map[]
      requires IndexesTags(byTag, images) && SetOf(images) <= universe && TagsAlike(SetOf(images), PlainAmong(universe))
      ensures PassReached(images, 0, Snapshot(universe), universe, reg)
    {
      hide ImageOk, IsFirst, Covered, SharesDigest, TagsApart, SetOf, TagsOk, AllOk, TwiceInFront, PassKnows, PassWidened, IndexesTags,
           Snapshot, TagsAlike;
      SnapshotPlain(universe);
      NothingTwice(byDigest);
      assert images[..0] == [];
      assert Resolved(reg, [], byDigest) == reg;
      NothingPlaced(images, PlainBefore(Snapshot(universe)));
      NothingKnown(images, Snapshot(universe));
      PassNothing(images, Snapshot(universe));
    }

    lemma ReachedPlain(images: seq<RSPImage>, n: nat, before: map<RSPImage, Saved>, universe: set<RSPImage>, reg: Registry)
      requires n <= |images| && PassReached(images, n, before, universe, reg)
      ensures forall i | i in universe :: i in PlainBefore(before) <==> !i.IsPossibleAlias()
      ensures SetOf(images) <= universe
    {
      hide ImageOk, IsFirst, Covered, TagsApart, SetOf, TagsOk, AllOk, PassKnows, PassWidened, IndexesTags, Snapshot, PlainBefore, TagsAlike;
      StillPlain(images, before, universe);
    }

    lemma PassSkips(images: seq<RSPImage>, n: nat, before: map<RSPImage, Saved>, universe: set<RSPImage>, reg: Registry)
      requires n < |images| && PassReached(images, n, before, universe, reg) && images[n] !in PlainBefore(before)
      ensures PassReached(images, n + 1, before, universe, reg) && !ClashAt(images, n, before)
    {
      hide ImageOk, IsFirst, Covered, TagsApart, SetOf, TagsOk, AllOk, PassKnows, PassWidened, IndexesTags, Snapshot, PlainBefore, Resolved,
           ClashAt, TagsAlike;
      var plain := PlainBefore(before);
      FirstsNext(images, n, plain, byDigest, Known(byDigest), byDigest);
      CoveredNext(images, n, plain, byDigest, Known(byDigest), byDigest, Known(byDigest));
      RegistryNext(reg, images, n, plain, byDigest, Known(byDigest), byDigest);
      KnowsSkipped(images, n, before, Snapshot(universe), byDigest);
    }

    lemma PassEnds(images: seq<RSPImage>, before: map<RSPImage, Saved>, universe: set<RSPImage>, reg: Registry)
      requires PassReached(images, |images|, before, universe, reg)
      ensures AllOk(universe, Resolved(reg, images[..|images|], byDigest)) && PassWidened(images, before, Snapshot(universe))
      ensures PassKnows(images, |images|, before, Snapshot(universe), byDigest)
      ensures forall d | d in byDigest :: IsFirst(images, |images|, PlainBefore(before), d, byDigest[d])
      ensures Covered(images, |images|, PlainBefore(before), byDigest, Known(byDigest))
    {
    }

    /** The same step, in terms of the list: it fails exactly if the list clashes here, at an image that was its own alias before. */
    method NextPlain(ghost images: seq<RSPImage>, ghost n: nat, image: RSPImage, ghost before: map<RSPImage, Saved>,
                     ghost universe: set<RSPImage>, ghost reg: Registry)
      returns (r: Result<(), ImageError>)
      requires n < |images| && images[n] == image && image in PlainBefore(before) && PassReached(images, n, before, universe, reg)
      modifies this`byDigest
      modifies universe`aliases, universe`imageType, universe`aliasTarget, universe`cycle, universe`architecture, universe`date
      ensures if ClashAt(images, n, before) then r == Err(SetChangedDuringIteration) && image in reg.own else r.Ok?
      ensures r.Err? ==> AllOk(universe, Resolved(reg, images[..n], byDigest)) && PassWidened(images, before, Snapshot(universe))
      ensures r.Ok? ==> PassReached(images, n + 1, before, universe, reg)
      ensures old(NoArchitectures(universe)) ==> NoArchitectures(universe)
    {
      hide ImageOk, IsFirst, Covered, SharesDigest, TagsApart, SetOf, TagsOk, AllOk, PassKnows, PassWidened, Widened, Overtaken,
           ClashAt, HeldUnder, Clash, Resolved, Selfed, IndexesTags, Snapshot, PlainBefore, MayBeAlias, TagsAlike;
      ghost var plain, placed, known, was := PlainBefore(before), byDigest, Known(byDigest), Snapshot(universe);
      ghost var own, held := Resolved(reg, images[..n], byDigest), HeldByPlain(image, universe);
      PlainMeets(images, n, image, before, universe, reg);
      PlainClashes(images, n, image, before, universe, reg);
      r := PlacePlain(image, universe, own);
      WidenedMeans(universe, was, image.digest);
      if image.digest in placed {
        PassMore(images, before, was, Snapshot(universe), image.digest);
        SelfedIs(own, placed[image.digest], image);
      }
      if r.Err? {
        return;
      }
      if image.digest in placed {
        KnowsNext(images, n, before, was, Snapshot(universe), placed, held);
        OvertakerKnows(universe, was, placed[image.digest], image, held);
      }
      FirstsNext(images, n, plain, placed, known, byDigest);
      CoveredNext(images, n, plain, placed, known, byDigest, Known(byDigest));
    }

    /** The images that a collection has under the aliases of another, up to the one in front of that one's digest. */
    ghost function HeldByPlain(image: RSPImage, universe: set<RSPImage>): set<RSPImage>
      reads this, image
    {
      if image.digest in byDigest then HeldUnder(byTag, universe, image.aliases - {byDigest[image.digest].tag}) else {}
    }

    /** What the next image of the first pass meets. */
    lemma PlainMeets(images: seq<RSPImage>, n: nat, image: RSPImage, before: map<RSPImage, Saved>, universe: set<RSPImage>, reg: Registry)
      requires n < |images| && images[n] == image && image in PlainBefore(before) && PassReached(images, n, before, universe, reg)
      ensures image in universe
      ensures forall w | w in PlainBefore(before) :: w in Snapshot(universe) && Snapshot(universe)[w].aliasTarget.None?
      ensures forall i | i in universe :: i in Snapshot(universe) && Snapshot(universe)[i].aliases == i.aliases
      ensures forall d | d in byDigest :: byDigest[d] in SetOf(images) && byDigest[d].digest == d && byDigest[d] in universe
      ensures image.digest in byDigest ==> SharesDigest(images, image.digest)
      ensures image.digest in byDigest && Clash(byTag, byDigest[image.digest], image) ==>
                byDigest[image.digest].tag != image.tag && image in reg.own
      ensures var own := Resolved(reg, images[..n], byDigest);
              Resolved(reg, images[..n + 1], if image.digest in byDigest then byDigest else byDigest[image.digest := image])
              == if image.digest in byDigest then Selfed(own, byDigest[image.digest], image) else own
    {
      hide ImageOk, IsFirst, Covered, SharesDigest, TagsApart, SetOf, TagsOk, AllOk, PassKnows, PassWidened,
           ClashAt, HeldUnder, Clash, Resolved, Selfed, IndexesTags, Snapshot, PlainBefore, MayBeAlias, TagsAlike;
      SnapshotPlain(universe);
      SnapshotFields(universe);
      SetOfMember(images, n);
      PlainUntargeted(images, before, universe, Resolved(reg, images[..n], byDigest));
      FirstsListed(images, n, PlainBefore(before), byDigest);
      if image.digest in byDigest {
        FrontShares(images, n, PlainBefore(before), byDigest[image.digest]);
        ClashParts(byTag, byDigest[image.digest], image);
        OwnBefore(reg, images[..n], byDigest, image, universe);
      }
      RegistryNext(reg, images, n, PlainBefore(before), byDigest, Known(byDigest),
                   if image.digest in byDigest then byDigest else byDigest[image.digest := image]);
    }

    /** Whether the list clashes at the next image of the first pass, and who hears of it. */
    lemma PlainClashes(images: seq<RSPImage>, n: nat, image: RSPImage, before: map<RSPImage, Saved>, universe: set<RSPImage>, reg: Registry)
      requires n < |images| && images[n] == image && image in PlainBefore(before) && PassReached(images, n, before, universe, reg)
      ensures ClashAt(images, n, before) <==> image.digest in byDigest && Clash(byTag, byDigest[image.digest], image)
      ensures image.digest in byDigest ==>
                && HeldByPlain(image, universe) <= SetOf(images)
                && (forall w | w in SetOf(images) ::
                      w in HeldByPlain(image, universe) <==>
                      Found(images, w) && w.tag in image.aliases && w.tag != byDigest[image.digest].tag)
      ensures image.digest !in byDigest ==>
                PassKnows(images, n + 1, before, Snapshot(universe), byDigest[image.digest := image])
    {
      hide ImageOk, IsFirst, Covered, SharesDigest, SetOf, TagsOk, AllOk, PassKnows, PassWidened, Found,
           ClashAt, HeldUnder, Clash, Resolved, Selfed, IndexesTags, Snapshot, PlainBefore, MayBeAlias, TagsAlike;
      SnapshotPlain(universe);
      SnapshotFields(universe);
      SetOfMember(images, n);
      FoundIs(byTag, images, image);
      FirstsListed(images, n, PlainBefore(before), byDigest);
      if image.digest in byDigest {
        ClashIs(images, n, before, Snapshot(universe), byDigest);
        ClashParts(byTag, byDigest[image.digest], image);
        HeldListed(byTag, images, universe, image.aliases - {byDigest[image.digest].tag});
      } else {
        KnowsFirst(images, n, before, Snapshot(universe), byDigest, Known(byDigest));
      }
    }

    /**
     First pass of `_replace_contents`: the images that are no aliases. It fails exactly if the
     list clashes somewhere, which takes an image that was its own alias.
     */
    method FirstPass(images: seq<RSPImage>, ghost universe: set<RSPImage>, ghost reg: Registry)
      returns (r: Result<(), ImageError>, pending: seq<RSPImage>, ghost reached: nat)
      requires TagsOk(byTag, universe) && AllOk(universe, reg)
      requires IndexesTags(byTag, images) && SetOf(images) <= universe && TagsAlike(SetOf(images), PlainAmong(universe))
      requires byDigest == map[]
      modifies this`byDigest
      modifies universe`aliases, universe`imageType, universe`aliasTarget, universe`cycle, universe`architecture, universe`date
      ensures if Clashes(images, old(Snapshot(universe)))
              then r == Err(SetChangedDuringIteration) && !(SetOf(images) !! reg.own) else r.Ok?
      ensures reached <= |images| && (r.Ok? ==> reached == |images|) && AllOk(universe, Resolved(reg, images[..reached], byDigest))
      ensures PassWidened(images, old(Snapshot(universe)), Snapshot(universe))
      ensures r.Ok? ==> pending == Among(images, universe - old(PlainAmong(universe)))
      ensures r.Ok? ==> forall d | d in byDigest :: IsFirst(images, |images|, old(PlainAmong(universe)), d, byDigest[d])
      ensures r.Ok? ==> Covered(images, |images|, old(PlainAmong(universe)), byDigest, Known(byDigest))
      ensures r.Ok? ==> PassKnows(images, |images|, old(Snapshot(universe)), Snapshot(universe), byDigest)
      ensures old(NoArchitectures(universe)) ==> NoArchitectures(universe)
    {
      hide *;
      ghost var before, plain := Snapshot(universe), PlainAmong(universe);
      SnapshotPlain(universe);
      PassStarts(images, universe, reg);
      AmongNone(universe - plain);
      assert images[..0] == [];
      pending := [];
      r := Ok(());
      for n := 0 to |images|
        invariant r.Ok? && PassReached(images, n, before, universe, reg)
        invariant old(NoArchitectures(universe)) ==> NoArchitectures(universe)
        invariant forall m | 0 <= m < n :: !ClashAt(images, m, before)
        invariant pending == Among(images[..n], universe - plain)
      {
        AmongNext(images, n, universe - plain);
        SetOfMember(images, n);
        ReachedPlain(images, n, before, universe, reg);
        if images[n].IsPossibleAlias() {
          pending := pending + [images[n]];
          PassSkips(images, n, before, universe, reg);
        } else {
          r := NextPlain(images, n, images[n], before, universe, reg);
          if r.Err? {
            ClashesHere(images, n, before);
            reached := n;
            return;
          }
        }
      }
      NoClashes(images, before);
      ReachedPlain(images, |images|, before, universe, reg);
      PassEnds(images, before, universe, reg);
      reached := |images|;
      assert images[..|images|] == images;
    }

    /** One image of the second pass: a possible alias follows whoever is in front of its digest. */
    method PlacePending(image: RSPImage, ghost universe: set<RSPImage>, ghost reg: Registry)
      returns (r: Result<(), ImageError>)
      requires TagsOk(byTag, universe) && AllOk(universe, reg) && image in universe && image.IsPossibleAlias()
      requires image.digest in byDigest ==>
                 var rep := byDigest[image.digest];
                 rep in universe && (rep.tag == image.tag ==> rep.IsPossibleAlias()) && rep.digest == image.digest
      modifies this`byDigest, this`unresolved
      modifies universe`aliases, image`imageType, image`aliasTarget, image`cycle, image`architecture, image`date
      ensures r.Ok?
      ensures AllOk(universe, if image.digest in old(byDigest) then Selfed(reg, image, old(byDigest)[image.digest]) else reg)
      ensures Moved(old(Snapshot(universe)), Snapshot(universe), image,
                    if image.digest in old(byDigest) && !old(byDigest[image.digest].IsPossibleAlias())
                    then Some(old(byDigest)[image.digest].tag) else None)
      ensures image.digest in old(byDigest) ==> byDigest == old(byDigest) && image.tag in byDigest[image.digest].aliases
      ensures image.digest !in old(byDigest) ==>
                byDigest == old(byDigest)[image.digest := image] && Snapshot(universe) == old(Snapshot(universe))
      ensures unresolved.Keys == old(unresolved).Keys +
                if image.digest in old(byDigest) && !old(byDigest[image.digest].IsPossibleAlias()) then {} else {image.digest}
      ensures old(NoArchitectures(universe)) ==> NoArchitectures(universe)
    {
      hide ImageOk, AllOk, Moved, Snapshot, HeldUnder;
      ghost var before := Snapshot(universe);
      SnapshotPlain(universe);
      SnapshotFields(universe);
      if image.digest in byDigest {
        ghost var rep := byDigest[image.digest];
        ghost var target := if rep.IsPossibleAlias() then None else Some(rep.tag);
        r := FollowOld(image, byDigest[image.digest], universe, reg);
        MovedTo(universe, before, image, target);
      } else {
        MovedNot(before, image);
        AppendUnresolved(image);
        byDigest := byDigest[image.digest := image];
        r := Ok(());
      }
    }

    /** The same step, in terms of where everybody is. */
    method NextPending(image: RSPImage, ghost done: set<RSPImage>, ghost fronts: map<string, RSPImage>,
                       ghost images: seq<RSPImage>, ghost plain: set<RSPImage>,
                       ghost universe: set<RSPImage>, ghost reg: Registry)
      returns (r: Result<(), ImageError>)
      requires TagsOk(byTag, universe) && AllOk(universe, reg) && IsPlain(plain, universe)
      requires TagsAlike(SetOf(images), plain) && SetOf(images) <= universe && FrontsOk(fronts, images, plain)
      requires image in SetOf(images) && image !in plain && done !! plain && (image in done ==> SharesDigest(images, image.digest))
      requires PlacesOk(byDigest, unresolved, fronts, done, images, Known(byDigest))
      modifies this`byDigest, this`unresolved
      modifies universe`aliases, image`imageType, image`aliasTarget, image`cycle, image`architecture, image`date
      ensures r.Ok? && IsPlain(plain, universe)
      ensures AllOk(universe, if image.digest in old(byDigest) then Selfed(reg, image, old(byDigest)[image.digest]) else reg)
      ensures byDigest == if image.digest in old(byDigest) then old(byDigest) else old(byDigest)[image.digest := image]
      ensures PlacesOk(byDigest, unresolved, fronts, done + {image}, images, Known(byDigest))
      ensures Followed(images, fronts, old(Snapshot(universe)), Snapshot(universe), {image})
      ensures old(NoArchitectures(universe)) ==> NoArchitectures(universe)
    {
      hide *;
      ghost var placed, waiting, known, before := byDigest, unresolved, Known(byDigest), Snapshot(universe);
      PlacedWithin(placed, waiting, fronts, done, images, known);
      KnownBefore(universe, byDigest);
      PlainTells(plain, universe);
      PendingMeets(placed, waiting, fronts, done, image, images, plain, known);
      ghost var meets := image.digest in placed && placed[image.digest] in plain;
      r := PlacePending(image, universe, reg);
      KnownKeys(byDigest);
      PendingFollows(images, fronts, before, Snapshot(universe), image, if meets then Some(placed[image.digest].tag) else None);
      PlainStill(plain, universe, before, image, if meets then Some(placed[image.digest].tag) else None);
      MovedKnown(universe, before, image, if meets then Some(placed[image.digest].tag) else None, placed, known, byDigest);
      PlacesNext(placed, waiting, known, byDigest, unresolved, Known(byDigest), fronts, done, image, images);
    }

    /** Second pass of `_replace_contents`: the possible aliases, against the fronts the first pass found. */
    method SecondPass(pending: seq<RSPImage>, ghost images: seq<RSPImage>, ghost plain: set<RSPImage>,
                      ghost universe: set<RSPImage>, ghost reg: Registry)
      returns (r: Result<(), ImageError>)
      requires TagsOk(byTag, universe) && AllOk(universe, reg) && IsPlain(plain, universe)
      requires TagsAlike(SetOf(images), plain) && SetOf(images) <= universe
      requires SetOf(pending) == SetOf(images) - plain
      requires forall i | i in SetOf(images) - plain :: TagTwice(pending, i.tag) <==> TagTwice(images, i.tag)
      requires unresolved == map[]
      requires FrontsOk(byDigest, images, plain)
      modifies this`byDigest, this`unresolved
      modifies universe`aliases, universe`imageType, universe`aliasTarget, universe`cycle, universe`architecture, universe`date
      ensures r.Ok? && AllOk(universe, Resolved(reg, pending, byDigest)) && IsPlain(plain, universe)
      ensures Followed(images, old(byDigest), old(Snapshot(universe)), Snapshot(universe), SetOf(pending))
      ensures pending == [] ==> byDigest == old(byDigest) && Snapshot(universe) == old(Snapshot(universe))
      ensures PlacesOk(byDigest, unresolved, old(byDigest), SetOf(pending), images, Known(byDigest))
      ensures old(NoArchitectures(universe)) ==> NoArchitectures(universe)
    {
      hide *;
      ghost var fronts, before := byDigest, Snapshot(universe);
      ghost var done: set<RSPImage> := {};
      KnownKeys(byDigest);
      FrontsPlaced(fronts, images, plain, Known(byDigest));
      NothingResolved(reg, byDigest);
      FollowedNone(images, fronts, before);
      assert pending[..0] == [];
      SetOfNone();
      r := Ok(());
      for n := 0 to |pending|
        invariant r.Ok? && AllOk(universe, Resolved(reg, pending[..n], byDigest)) && IsPlain(plain, universe)
        invariant old(NoArchitectures(universe)) ==> NoArchitectures(universe)
        invariant Followed(images, fronts, before, Snapshot(universe), done)
        invariant n == 0 ==> byDigest == fronts && Snapshot(universe) == before
        invariant done == SetOf(pending[..n])
        invariant PlacesOk(byDigest, unresolved, fronts, done, images, Known(byDigest))
      {
        var image := pending[n];
        ghost var placed, waiting, known, was := byDigest, unresolved, Known(byDigest), Snapshot(universe);
        SetOfGrows(pending, n);
        if image in done {
          PendingAgain(images, plain, pending, n);
        }
        PendingRegistry(reg, pending, n, images, plain, placed, waiting, known, fronts,
                        if image.digest in placed then placed else placed[image.digest := image]);
        r := NextPending(image, done, fronts, images, plain, universe, Resolved(reg, pending[..n], byDigest));
        FollowedMore(images, fronts, before, was, Snapshot(universe), done, image);
        done := done + {image};
      }
      assert pending[..|pending|] == pending;
    }

    /** Both passes over a list: who ends up in front of each digest, and every alias resolved; or a clash. */
    method ResolveAll(images: seq<RSPImage>, ghost universe: set<RSPImage>, ghost reg: Registry)
      returns (r: Result<(), ImageError>, ghost after: Registry)
      requires TagsOk(byTag, universe) && AllOk(universe, reg)
      requires IndexesTags(byTag, images) && SetOf(images) <= universe && TagsAlike(SetOf(images), PlainAmong(universe))
      modifies this`byDigest, this`unresolved
      modifies universe`aliases, universe`imageType, universe`aliasTarget, universe`cycle, universe`architecture, universe`date
      ensures if Clashes(images, old(Snapshot(universe)))
              then r == Err(SetChangedDuringIteration) && !(SetOf(images) !! reg.own) else r.Ok?
      ensures AllOk(universe, after) && OnlyGrown(old(Snapshot(universe)))
      ensures r.Ok? ==> Settled(images, old(Snapshot(universe)), byDigest, unresolved.Keys, reg) && after == Resolved(reg, images, byDigest)
      ensures r.Ok? && SetOf(images) <= old(PlainAmong(universe)) ==>
                PassKnows(images, |images|, old(Snapshot(universe)), Snapshot(universe), byDigest)
    {
      hide *;
      ghost var plain, before := PlainAmong(universe), Snapshot(universe);
      SnapshotPlain(universe);
      byDigest, unresolved := map[], map[];
      var pending;
      ghost var reached;
      PendingAre(images, plain, universe);
      r, pending, reached := FirstPass(images, universe, reg);
      after := Resolved(reg, images[..reached], byDigest);
      PassGrows(images, before, universe);
      if r.Err? {
        return;
      }
      assert images[..|images|] == images;
      ghost var fronts, known, middle := byDigest, Known(byDigest), Snapshot(universe);
      KnownKeys(fronts);
      SnapshotFields(universe);
      FirstsAreFronts(images, plain, fronts, known);
      FrontsWithin(fronts, images, plain);
      NothingListed(pending);
      r := SecondPass(pending, images, plain, universe, after);
      after := Resolved(reg, images, byDigest);
      BothPasses(images, plain, pending, fronts, known, before, middle, byDigest, unresolved, universe, reg);
    }

    /** What holds of a collection after every operation. */
    ghost predicate Star(reg: Registry)
      reads this, members`imageType, members`cycle, members`architecture,
            members`date, members`aliases, members`aliasTarget
    {
      && IndexOk(byTag, byType, members)
      && AllOk(members, reg)
      && FrontsAt(Snapshot(members), byDigest, unresolved.Keys)
      && FoundAt(Snapshot(members), byTag, byDigest)
    }

    method BuildIndex(images: seq<RSPImage>)
      modifies this`byTag, this`byType, this`members
      ensures IndexesTags(byTag, images) && multiset(Everything(byType)) == multiset(images)
      ensures IndexOk(byTag, byType, members) && members == SetOf(images)
      ensures TypesFit(byType)
      ensures (forall i | i in images :: WellParsed(i.Key())) ==> forall t | t in byType :: NewestFirst(byType[t])
    {
      hide WellParsed, NewestFirst, IndexOk, IndexesTags, SetOf, TypesFit, Listing;
      byTag, byType := Index(images);
      members := SetOf(images);
    }

    /** `_replace_contents` once the images of other cycles are gone. */
    method Reindex(images: seq<RSPImage>, ghost universe: set<RSPImage>, ghost reg: Registry)
      returns (r: Result<(), ImageError>, ghost after: Registry)
      requires SetOf(images) <= universe && AllOk(universe, reg)
      modifies this
      modifies universe`aliases, universe`imageType, universe`aliasTarget, universe`cycle, universe`architecture, universe`date
      ensures if Clashes(images, old(Snapshot(universe)))
              then r == Err(SetChangedDuringIteration) && !(SetOf(images) !! reg.own) else r.Ok?
      ensures AllOk(universe, after) && OnlyGrown(old(Snapshot(universe)))
      ensures r.Ok? ==> Settled(images, old(Snapshot(universe)), byDigest, unresolved.Keys, reg) && after == Resolved(reg, images, byDigest)
      ensures r.Ok? && SetOf(images) <= old(PlainAmong(universe)) ==>
                PassKnows(images, |images|, old(Snapshot(universe)), Snapshot(universe), byDigest)
      ensures IndexesTags(byTag, images) && multiset(Everything(byType)) == multiset(images)
      ensures IndexOk(byTag, byType, members) && members == SetOf(images)
      ensures r.Ok? ==> TypesFit(byType) && forall t | t in byType :: NewestFirst(byType[t])
    {
      hide *;
      ghost var before := Snapshot(universe);
      SnapshotPlain(universe);
      BuildIndex(images);
      IndexesOk(byTag, images, universe);
      AllAlike(SetOf(images), universe, reg);
      r, after := ResolveAll(images, universe, reg);
      if r.Err? {
        return;
      }
      SettledParsed(images, before, byDigest, unresolved.Keys, reg);
      BuildIndex(images);
    }

    /**
     `_replace_contents`. It fails exactly if the list of the cycle clashes, which takes an
     image that was its own alias before; then the images have only grown, and the collection
     is not to be used.
     */
    method ReplaceContents(images: seq<RSPImage>, cycle: Option<nat>, ghost universe: set<RSPImage>, ghost reg: Registry)
      returns (r: Result<(), ImageError>, ghost after: Registry)
      requires SetOf(images) <= universe && AllOk(universe, reg)
      modifies this
      modifies universe`aliases, universe`imageType, universe`aliasTarget, universe`cycle, universe`architecture, universe`date
      ensures var kept := old(OfCycle(images, cycle));
              if Clashes(kept, old(Snapshot(universe))) then r == Err(SetChangedDuringIteration) && !(SetOf(kept) !! reg.own) else r.Ok?
      ensures AllOk(universe, after) && OnlyGrown(old(Snapshot(universe)))
      ensures r.Ok? ==> after == Resolved(reg, old(OfCycle(images, cycle)), byDigest)
      ensures r.Ok? ==> Settled(old(OfCycle(images, cycle)), old(Snapshot(universe)), byDigest, unresolved.Keys, reg)
      ensures r.Ok? && SetOf(old(OfCycle(images, cycle))) <= old(PlainAmong(universe)) ==>
                var kept := old(OfCycle(images, cycle));
                PassKnows(kept, |kept|, old(Snapshot(universe)), Snapshot(universe), byDigest)
      ensures IndexesTags(byTag, old(OfCycle(images, cycle)))
      ensures multiset(Everything(byType)) == multiset(old(OfCycle(images, cycle)))
      ensures members == SetOf(old(OfCycle(images, cycle))) && (r.Ok? ==> Star(after))
      ensures r.Ok? ==> TypesFit(byType) && forall t | t in byType :: NewestFirst(byType[t])
    {
      hide *;
      ghost var before := Snapshot(universe);
      SnapshotPlain(universe);
      var kept := KeepCycle(images, cycle);
      OfCycleAre(images, cycle);
      r, after := Reindex(kept, universe, reg);
      if r.Ok? {
        SettledIsStar(this, kept, before, reg);
      }
    }

    /** An object that `__init__` has yet to fill. */
    constructor Empty()
      ensures byTag == map[] && byType == map[] && byDigest == map[] && unresolved == map[] && members == {}
    {
      byTag, byType, byDigest, unresolved, members := map[], map[], map[], map[], {};
    }

    /** `__init__`: the collection of the images of one cycle, or of all images; or the exception it ends with. */
    static method Make(images: seq<RSPImage>, cycle: Option<nat>, ghost universe: set<RSPImage>, ghost reg: Registry)
      returns (made: Result<RSPImageCollection, ImageError>, ghost after: Registry)
      requires SetOf(images) <= universe && AllOk(universe, reg)
      modifies universe`aliases, universe`imageType, universe`aliasTarget, universe`cycle, universe`architecture, universe`date
      ensures var kept := old(OfCycle(images, cycle));
              if Clashes(kept, old(Snapshot(universe))) then made == Err(SetChangedDuringIteration) && !(SetOf(kept) !! reg.own) else made.Ok?
      ensures AllOk(universe, after) && OnlyGrown(old(Snapshot(universe)))
      ensures made.Ok? ==> fresh(made.value) && after == Resolved(reg, old(OfCycle(images, cycle)), made.value.byDigest)
      ensures made.Ok? ==> Settled(old(OfCycle(images, cycle)), old(Snapshot(universe)), made.value.byDigest, made.value.unresolved.Keys, reg)
      ensures made.Ok? && SetOf(old(OfCycle(images, cycle))) <= old(PlainAmong(universe)) ==>
                var kept := old(OfCycle(images, cycle));
                PassKnows(kept, |kept|, old(Snapshot(universe)), Snapshot(universe), made.value.byDigest)
      ensures made.Ok? ==> IndexesTags(made.value.byTag, old(OfCycle(images, cycle)))
      ensures made.Ok? ==> made.value.Star(after) && made.value.members == SetOf(old(OfCycle(images, cycle)))
      ensures made.Ok? ==> multiset(Everything(made.value.byType)) == multiset(old(OfCycle(images, cycle)))
      ensures made.Ok? ==> TypesFit(made.value.byType) && forall t | t in made.value.byType :: NewestFirst(made.value.byType[t])
    {
      hide *;
      var c := new RSPImageCollection.Empty();
      var r;
      r, after := c.ReplaceContents(images, cycle, universe, reg);
      if r.Err? {
        return Err(r.error), after;
      }
      made := Ok(c);
    }

    /** An alias in the collection that the image knows targets it. */
    ghost predicate Aliased(image: RSPImage)
      reads this, image, byTag.Values
    {
      && !image.imageType.Alias?
      && exists a | a in image.aliases && a in byTag :: byTag[a].imageType.Alias? && byTag[a].aliasTarget == Some(image.tag)
    }

    /** `_is_image_aliased` */
    method IsImageAliased(image: RSPImage) returns (aliased: bool)
      ensures aliased <==> old(Aliased(image))
    {
      if image.imageType.Alias? {
        return false;
      }
      var todo := image.aliases;
      while todo != {}
        invariant todo <= image.aliases
        invariant forall a | a in image.aliases - todo && a in byTag ::
                    !(byTag[a].imageType.Alias? && byTag[a].aliasTarget == Some(image.tag))
        decreases todo
      {
        var alias :| alias in todo;
        todo := todo - {alias};
        if alias in byTag && byTag[alias].imageType.Alias? && byTag[alias].aliasTarget == Some(image.tag) {
          return true;
        }
      }
      return false;
    }

    /** An image that these options of `all_images` do not hide: those that an alias stands for, and aliases of a member. */
    ghost predicate Listed(image: RSPImage, hideAliased: bool, hideResolved: bool)
      reads this, image, byTag.Values
    {
      && !(hideAliased && Aliased(image))
      && !(hideResolved && image.aliasTarget.Some? && image.aliasTarget.value in byTag)
    }

    ghost function ListedImages(hideAliased: bool, hideResolved: bool): set<RSPImage>
      reads this, members, byTag.Values
    {
      set i | i in members && Listed(i, hideAliased, hideResolved)
    }

    /** The loop of `all_images`. */
    method LeaveOut(shown: seq<RSPImage>, hideAliased: bool, hideResolved: bool) returns (all: seq<RSPImage>)
      requires SetOf(shown) <= members
      ensures all == old(Among(shown, ListedImages(hideAliased, hideResolved)))
    {
      hide Among, Aliased;
      ghost var keep := ListedImages(hideAliased, hideResolved);
      all := [];
      AmongNone(keep);
      assert shown[..0] == [];
      for n := 0 to |shown|
        invariant all == Among(shown[..n], keep)
      {
        AmongNext(shown, n, keep);
        SetOfMember(shown, n);
        assert shown[n] in keep <==> Listed(shown[n], hideAliased, hideResolved);
        var aliased := false;
        if hideAliased {
          aliased := IsImageAliased(shown[n]);
        }
        if !aliased && !(hideResolved && shown[n].aliasTarget.Some? && shown[n].aliasTarget.value in byTag) {
          all := all + [shown[n]];
        }
      }
      assert shown[..|shown|] == shown;
    }

    /** `all_images` */
    method AllImages(hideAliased: bool, hideArch: bool, hideResolved: bool) returns (all: seq<RSPImage>)
      requires IndexOk(byTag, byType, members)
      ensures all == old(Among(Visible(Everything(byType), hideArch), ListedImages(hideAliased, hideResolved)))
      ensures forall i: RSPImage | i in old(members) ::
                multiset(all)[i] == if (hideArch && i.architecture.GetOr("") != "")
                                       || (hideAliased && !i.imageType.Alias?
                                           && exists a | a in i.aliases && a in byTag :: byTag[a].imageType.Alias? && byTag[a].aliasTarget == Some(i.tag))
                                       || (hideResolved && i.aliasTarget.Some? && i.aliasTarget.value in byTag)
                                    then 0 else multiset(Everything(byType))[i]
    {
      hide *;
      IndexLists(byTag, byType, members);
      CountListed(this, hideAliased, hideArch, hideResolved);
      VisibleIn(Everything(byType), hideArch);
      var shown := ImagesShown(hideArch);
      all := LeaveOut(shown, hideAliased, hideResolved);
    }

    /** `all_images` without its other options. */
    method ImagesShown(hideArch: bool) returns (all: seq<RSPImage>)
      ensures all == old(Visible(Everything(byType), hideArch)) == Visible(Everything(byType), hideArch)
    {
      all := ImageLists.AllImages(byType, hideArch);
    }

    /** Every possible alias of this digest has a target. */
    ghost predicate Tidy(digest: string)
      reads this, members
    {
      forall i | i in members && i.digest == digest && i.IsPossibleAlias() :: i.aliasTarget.Some?
    }

    /** Members that are not for one architecture. */
    ghost function GenericMembers(): set<RSPImage>
      reads this, members
    {
      set i | i in members && i.IsGeneric()
    }

    /** The list from which `add` builds the collection again. */
    ghost function Rebuilt(image: RSPImage): seq<RSPImage>
      reads Everything(byType)`architecture, this
    {
      Visible(Everything(byType), true) + [image]
    }

    /** `add` when aliases are waiting for this digest: the collection is built again, which may fail. */
    method AddAwaited(image: RSPImage, ghost universe: set<RSPImage>, ghost reg: Registry)
      returns (r: Result<(), ImageError>, ghost after: Registry)
      requires Star(reg) && members + {image} <= universe && AllOk(universe, reg)
      requires !image.IsPossibleAlias() && image.digest in unresolved
      modifies this
      modifies universe`aliases, universe`imageType, universe`aliasTarget, universe`cycle, universe`architecture, universe`date
      ensures if Clashes(old(Rebuilt(image)), old(Snapshot(universe))) then r == Err(SetChangedDuringIteration) else r.Ok?
      ensures AllOk(universe, after) && OnlyGrown(old(Snapshot(universe)))
      ensures r.Ok? ==> Star(after) && after == Resolved(reg, old(Rebuilt(image)), byDigest)
      ensures r.Ok? && old(ListedOnce(byType) && TagsApart(members)) ==> ListedOnce(byType) && TagsApart(members) && after == reg
      ensures r.Ok? ==> members == old(GenericMembers()) + {image} && image.tag in byTag && byTag[image.tag] == image
      ensures r.Ok? ==> image.digest in byDigest && byDigest[image.digest] == image && Tidy(image.digest)
      ensures r.Ok? ==> forall i | i in members && i.digest == image.digest && i != image :: KnowsOf(i, image.tag)
    {
      hide *;
      ghost var before, was, once := Snapshot(universe), members, ListedOnce(byType) && TagsApart(members);
      SnapshotPlain(universe);
      NobodyPlain(this, image, universe, reg);
      GenericAre(this);
      AwaitedListed(this, image, universe, reg);
      ghost var rebuilt := Rebuilt(image);
      var all := ImagesShown(true);
      all := all + [image];
      assert all == rebuilt;
      OfAnyCycle(all);
      r, after := ReplaceContents(all, None, universe, reg);
      if r.Err? {
        return;
      }
      LastIsFound(byTag, all, image);
      if once {
        CountedOnce(byType, all);
        DistinctApart(all);
        NeverTwice(all, byDigest, reg);
      }
      AwaitedInFront(this, all, image, was, before, reg);
    }

    /** Who learns of a new image: the one in front of its digest, and whom that one's aliases find. */
    ghost function Told(image: RSPImage, universe: set<RSPImage>): set<RSPImage>
      reads this, byDigest.Values`aliases
    {
      if image.digest in byDigest
      then {byDigest[image.digest]} + HeldUnder(byTag, universe, byDigest[image.digest].aliases - {image.tag})
      else {}
    }

    /** What is registered once an image has been added without building the collection again. */
    ghost function Joined(image: RSPImage, reg: Registry): Registry
      reads this
    {
      if image.digest in byDigest then Selfed(reg, image, byDigest[image.digest]) else reg
    }

    /** A new possible alias behind whoever is in front; the first of its digest is not recorded as waiting. */
    method Follow(image: RSPImage, ghost universe: set<RSPImage>, ghost reg: Registry)
      returns (r: Result<(), ImageError>)
      requires TagsOk(byTag, universe) && AllOk(universe, reg) && image in universe && image.IsPossibleAlias()
      requires image.digest in byDigest ==>
                 var rep := byDigest[image.digest];
                 rep in universe && rep.digest == image.digest && (rep.tag == image.tag ==> rep.IsPossibleAlias())
      modifies this`byDigest, this`unresolved
      modifies universe`aliases, image`imageType, image`aliasTarget, image`cycle, image`architecture, image`date
      ensures r.Ok? && AllOk(universe, old(Joined(image, reg))) && image.IsPossibleAlias()
      ensures forall i | i in universe :: old(i.aliases) <= i.aliases
      ensures old(NoArchitectures(universe)) ==> NoArchitectures(universe)
      ensures image.digest in old(byDigest) ==> byDigest == old(byDigest) && image.tag in byDigest[image.digest].aliases
      ensures image.digest !in old(byDigest) ==>
                byDigest == old(byDigest)[image.digest := image] && Snapshot(universe) == old(Snapshot(universe))
      ensures forall i | i in old(Told(image, universe)) :: KnowsOf(i, image.tag)
      ensures unresolved.Keys == old(unresolved.Keys)
                + if image.digest in old(byDigest) && old(byDigest[image.digest].IsPossibleAlias()) then {image.digest} else {}
      ensures image.aliasTarget == if image.digest in old(byDigest) && !old(byDigest[image.digest].IsPossibleAlias())
                                   then Some(old(byDigest)[image.digest].tag) else old(image.aliasTarget)
    {
      hide ImageOk, AllOk, HeldUnder, Selfed, Snapshot;
      if image.digest in byDigest {
        r := FollowOld(image, byDigest[image.digest], universe, reg);
      } else {
        r := Ok(());
        byDigest := byDigest[image.digest := image];
      }
    }

    /** The same, in terms of where everybody stands. */
    method PlaceFollower(image: RSPImage, ghost universe: set<RSPImage>, ghost reg: Registry)
      returns (r: Result<(), ImageError>)
      requires Star(reg) && members + {image} <= universe && AllOk(universe, reg) && image.IsPossibleAlias()
      modifies this`byDigest, this`unresolved
      modifies universe`aliases, image`imageType, image`aliasTarget, image`cycle, image`architecture, image`date
      ensures r.Ok? && AllOk(universe, old(Joined(image, reg))) && OnlyGrown(old(Snapshot(universe)))
      ensures FrontsAt(Snapshot(members + {image}), byDigest, unresolved.Keys)
      ensures FoundAt(Snapshot(members + {image}), byTag[image.tag := image], byDigest)
      ensures forall i | i in old(Told(image, universe)) :: KnowsOf(i, image.tag)
      ensures byDigest == if image.digest in old(byDigest) then old(byDigest) else old(byDigest)[image.digest := image]
      ensures unresolved.Keys == old(unresolved.Keys)
                + if image.digest in old(byDigest) && old(byDigest[image.digest].IsPossibleAlias()) then {image.digest} else {}
      ensures image.aliasTarget == if image.digest in old(byDigest) && !old(byDigest[image.digest].IsPossibleAlias())
                                   then Some(old(byDigest)[image.digest].tag) else old(image.aliasTarget)
      ensures image.digest !in old(byDigest) ==> Snapshot(universe) == old(Snapshot(universe))
    {
      hide *;
      ghost var had, was, before, placed, tags := members, Snapshot(members), Snapshot(universe), byDigest, byTag;
      ghost var waiting := unresolved.Keys;
      SnapshotPlain(universe);
      SnapshotPlain(members);
      SnapshotFields(universe);
      StarParts(this, reg);
      NewMeets(this, image, universe, reg);
      r := Follow(image, universe, reg);
      FollowerIn(byTag, image, had, was, before, placed, waiting, universe, byDigest, unresolved.Keys);
    }

    /** The index part of `add`. */
    method Record(image: RSPImage, ghost universe: set<RSPImage>, ghost reg: Registry)
      requires IndexOk(byTag, byType, members) && members + {image} <= universe && AllOk(universe, reg)
      requires FrontsAt(Snapshot(members + {image}), byDigest, unresolved.Keys)
      requires FoundAt(Snapshot(members + {image}), byTag[image.tag := image], byDigest)
      modifies this`byTag, this`byType, this`members
      ensures Star(reg) && byTag == old(byTag)[image.tag := image] && members == old(members) + {image}
      ensures multiset(Everything(byType)) == multiset(Everything(old(byType))) + multiset{image}
      ensures old(ListedOnce(byType)) && image !in old(members) ==> ListedOnce(byType)
    {
      hide ImageOk, FrontsAt, FoundAt, AllOk, IndexOk, InSeries, NewestFirst, Listing, ListOf, ListedOnce;
      SmallerOk(members + {image}, universe, reg);
      byTag, byType := Indexed(byTag, byType, image, members);
      members := members + {image};
    }

    /** `add` of a possible alias. */
    method AddFollower(image: RSPImage, ghost universe: set<RSPImage>, ghost reg: Registry)
      returns (r: Result<(), ImageError>)
      requires Star(reg) && members + {image} <= universe && AllOk(universe, reg) && image.IsPossibleAlias()
      modifies this
      modifies universe`aliases, image`imageType, image`aliasTarget, image`cycle, image`architecture, image`date
      ensures r.Ok? && Star(old(Joined(image, reg))) && AllOk(universe, old(Joined(image, reg))) && OnlyGrown(old(Snapshot(universe)))
      ensures old(ListedOnce(byType)) && image !in old(members) ==> ListedOnce(byType)
      ensures byTag == old(byTag)[image.tag := image] && members == old(members) + {image}
      ensures multiset(Everything(byType)) == multiset(Everything(old(byType))) + multiset{image}
      ensures forall i | i in old(Told(image, universe)) :: KnowsOf(i, image.tag)
      ensures byDigest == if image.digest in old(byDigest) then old(byDigest) else old(byDigest)[image.digest := image]
      ensures unresolved.Keys == old(unresolved.Keys)
                + if image.digest in old(byDigest) && old(byDigest[image.digest].IsPossibleAlias()) then {image.digest} else {}
      ensures image.aliasTarget == if image.digest in old(byDigest) && !old(byDigest[image.digest].IsPossibleAlias())
                                   then Some(old(byDigest)[image.digest].tag) else old(image.aliasTarget)
      ensures image.digest !in old(byDigest) ==> Snapshot(universe) == old(Snapshot(universe))
    {
      hide ImageOk, AllOk, IndexOk, FrontsAt, FoundAt, ListedOnce, Joined, Listing, OnlyGrown, KnowsOf, HeldUnder, InSeries, TypesFit;
      ghost var before, told, after := Snapshot(universe), Told(image, universe), Joined(image, reg);
      r := PlaceFollower(image, universe, reg);
      Record(image, universe, after);
    }

    /** A new image that is no alias takes the place of whoever is in front, unless the two clash. */
    method Lead(image: RSPImage, ghost universe: set<RSPImage>, ghost reg: Registry)
      returns (r: Result<(), ImageError>)
      requires TagsOk(byTag, universe) && AllOk(universe, reg) && image in universe
      requires image.digest in byDigest ==> var rep := byDigest[image.digest]; rep in universe && rep.digest == image.digest
      modifies this`byDigest
      modifies universe`aliases, universe`imageType, universe`aliasTarget, universe`cycle, universe`architecture, universe`date
      ensures if image.digest in old(byDigest) && old(Clash(byTag, image, byDigest[image.digest]))
              then r == Err(SetChangedDuringIteration) else r.Ok?
      ensures AllOk(universe, old(Joined(image, reg))) && Widened(old(Snapshot(universe)), Snapshot(universe), image.digest)
      ensures byDigest == if r.Ok? then old(byDigest)[image.digest := image] else old(byDigest)
      ensures image.digest !in old(byDigest) ==> Snapshot(universe) == old(Snapshot(universe))
      ensures r.Ok? && image.digest in old(byDigest) ==>
                var rep := old(byDigest)[image.digest];
                var held := HeldUnder(byTag, universe, old(byDigest[image.digest].aliases) - {image.tag});
                Overtaken(old(Snapshot(universe)), Snapshot(universe), image, rep, held, held + {rep})
      ensures old(NoArchitectures(universe)) ==> NoArchitectures(universe)
    {
      hide *;
      JoinedIs(this, image, reg);
      if image.digest in byDigest {
        r := ReplaceOld(image, byDigest[image.digest], universe, reg);
      } else {
        WidenedNot(Snapshot(universe), image.digest);
        r := Ok(());
        byDigest := byDigest[image.digest := image];
      }
    }

    /** The same, in terms of where everybody stands. */
    method PlaceLeader(image: RSPImage, ghost universe: set<RSPImage>, ghost reg: Registry)
      returns (r: Result<(), ImageError>)
      requires Star(reg) && members + {image} <= universe && AllOk(universe, reg)
      requires !image.IsPossibleAlias() && image.digest !in unresolved
      modifies this`byDigest
      modifies universe`aliases, universe`imageType, universe`aliasTarget, universe`cycle, universe`architecture, universe`date
      ensures if image.digest in old(byDigest) && old(Clash(byTag, image, byDigest[image.digest]))
              then r == Err(SetChangedDuringIteration) else r.Ok?
      ensures AllOk(universe, old(Joined(image, reg))) && OnlyGrown(old(Snapshot(universe)))
      ensures forall i | i in universe :: i.imageType == old(i.imageType) && i.aliasTarget.Some? == old(i.aliasTarget.Some?)
      ensures r.Err? ==> byDigest == old(byDigest) && Star(old(Joined(image, reg)))
      ensures r.Ok? ==> FrontsAt(Snapshot(members + {image}), byDigest, unresolved.Keys)
      ensures r.Ok? ==> FoundAt(Snapshot(members + {image}), byTag[image.tag := image], byDigest)
      ensures r.Ok? ==> byDigest == old(byDigest)[image.digest := image]
      ensures r.Ok? ==> forall i | i in old(Told(image, universe)) :: KnowsOf(i, image.tag)
      ensures r.Ok? ==> forall i | i in members && i != image ::
                i.aliasTarget == if i in old(Told(image, universe)) then Redirected(old(i.aliasTarget), old(byDigest), image) else old(i.aliasTarget)
      ensures image.digest !in old(byDigest) ==> Snapshot(universe) == old(Snapshot(universe))
    {
      hide *;
      ghost var was, before, placed := Snapshot(members), Snapshot(universe), byDigest;
      ghost var told, after := Told(image, universe), Joined(image, reg);
      SnapshotPlain(universe);
      SnapshotPlain(members);
      SnapshotFields(universe);
      StarParts(this, reg);
      TargetsBefore(universe, reg);
      ghost var names := if image.digest in byDigest then byDigest[image.digest].aliases - {image.tag} else {};
      NewMeets(this, image, universe, reg);
      r := Lead(image, universe, reg);
      SnapshotFields(universe);
      WidenedMeans(universe, before, image.digest);
      TypesKept(before);
      if r.Err? {
        StarKept(this, before, was, after);
        return;
      }
      if image.digest in placed {
        OvertakenShows(byTag, universe, before, image, placed[image.digest], names);
        TwinsLearn(universe, before, image, placed[image.digest], HeldUnder(byTag, universe, names));
      }
      LeaderIn(byTag, image, members, was, before, placed, unresolved.Keys, names, told, universe);
    }

    /** `add` of an image that is no alias and that no alias waits for. */
    method AddLeader(image: RSPImage, ghost universe: set<RSPImage>, ghost reg: Registry)
      returns (r: Result<(), ImageError>)
      requires Star(reg) && members + {image} <= universe && AllOk(universe, reg)
      requires !image.IsPossibleAlias() && image.digest !in unresolved
      modifies this
      modifies universe`aliases, universe`imageType, universe`aliasTarget, universe`cycle, universe`architecture, universe`date
      ensures if image.digest in old(byDigest) && old(Clash(byTag, image, byDigest[image.digest]))
              then r == Err(SetChangedDuringIteration) else r.Ok?
      ensures Star(old(Joined(image, reg))) && AllOk(universe, old(Joined(image, reg)))
      ensures OnlyGrown(old(Snapshot(universe))) && unresolved == old(unresolved)
      ensures r.Err? ==> byTag == old(byTag) && byType == old(byType) && byDigest == old(byDigest) && members == old(members)
      ensures r.Ok? && old(ListedOnce(byType)) && image !in old(members) ==> ListedOnce(byType)
      ensures r.Ok? ==> byTag == old(byTag)[image.tag := image] && members == old(members) + {image}
      ensures r.Ok? ==> multiset(Everything(byType)) == multiset(Everything(old(byType))) + multiset{image}
      ensures r.Ok? ==> byDigest == old(byDigest)[image.digest := image]
      ensures forall i | i in universe :: i.imageType == old(i.imageType) && i.aliasTarget.Some? == old(i.aliasTarget.Some?)
      ensures r.Ok? ==> forall i | i in old(Told(image, universe)) :: KnowsOf(i, image.tag)
      ensures r.Ok? ==> forall i | i in old(members) && i != image ::
                i.aliasTarget == if i in old(Told(image, universe)) then Redirected(old(i.aliasTarget), old(byDigest), image) else old(i.aliasTarget)
      ensures image.digest !in old(byDigest) ==> Snapshot(universe) == old(Snapshot(universe))
    {
      hide ImageOk, AllOk, IndexOk, FrontsAt, FoundAt, ListedOnce, Clash, Joined, Redirected, Listing, OnlyGrown, KnowsOf, HeldUnder;
      ghost var before, told, after := Snapshot(universe), Told(image, universe), Joined(image, reg);
      r := PlaceLeader(image, universe, reg);
      if r.Ok? {
        Record(image, universe, after);
      }
    }

    /** Adding this image builds the collection again. */
    predicate IsAwaited(image: RSPImage)
      reads this, image`imageType
    {
      !image.IsPossibleAlias() && image.digest in unresolved
    }

    /** Whether `add` of this image fails. */
    ghost predicate AddFails(image: RSPImage, universe: set<RSPImage>)
      reads this, image`imageType, Everything(byType)`architecture, byDigest.Values`aliases
      reads universe`imageType, universe`cycle, universe`architecture, universe`date, universe`aliases, universe`aliasTarget
    {
      !image.IsPossibleAlias() &&
      if image.digest in unresolved then Clashes(Rebuilt(image), Snapshot(universe))
      else image.digest in byDigest && Clash(byTag, image, byDigest[image.digest])
    }

    /**
     `add`. It fails exactly if the new image is no alias and the one in front of its digest is
     its own alias and does not know the new one, or if the list clashes from which the
     collection is built again; in the first case the collection stays as it was.

     Else the image in front of the digest knows of the new one, and so does whoever its
     aliases find by tag. A new image that is no alias comes to the front of its digest, and
     what of those targeted the image there targets the new one. The aliases of the digest all
     have targets afterwards if and only if they had targets before or were waiting; a lone
     alias that `add` put here was not recorded as waiting, so it stays without a target.
     Building the collection again loses the images for one architecture.

     A tag may be taken, by another image or by the new one. Then the index by tag has the new
     one, and the index by type lists both; if the other was in front, both become aliases of
     themselves.
     */
    method Add(image: RSPImage, ghost universe: set<RSPImage>, ghost reg: Registry)
      returns (r: Result<(), ImageError>, ghost after: Registry)
      requires Star(reg) && members + {image} <= universe && AllOk(universe, reg)
      modifies this
      modifies universe`aliases, universe`imageType, universe`aliasTarget, universe`cycle, universe`architecture, universe`date
      ensures if old(AddFails(image, universe)) then r == Err(SetChangedDuringIteration) else r.Ok?
      ensures AllOk(universe, after) && OnlyGrown(old(Snapshot(universe)))
      ensures r.Err? && !old(IsAwaited(image)) ==>
                && Star(after) && byTag == old(byTag) && byType == old(byType) && members == old(members)
                && byDigest == old(byDigest) && unresolved == old(unresolved)
      ensures r.Ok? ==> Star(after)
      ensures after == if !old(IsAwaited(image)) then old(Joined(image, reg))
                       else if r.Ok? then Resolved(reg, old(Rebuilt(image)), byDigest) else after
      ensures r.Ok? && old(ListedOnce(byType) && TagsApart(members)) && image.tag !in old(byTag) ==>
                ListedOnce(byType) && TagsApart(members) && after == reg
      ensures r.Ok? ==>
                && members == (if old(IsAwaited(image)) then old(GenericMembers()) else old(members)) + {image}
                && image.tag in byTag && byTag[image.tag] == image && image.digest in byDigest
                && byDigest[image.digest] == (if old(image.IsPossibleAlias()) && image.digest in old(byDigest)
                                              then old(byDigest)[image.digest] else image)
      ensures r.Ok? && !old(image.IsPossibleAlias()) && image.digest in old(unresolved) ==>
                members == old(set i | i in members && i.architecture.GetOr("") == "") + {image}
      ensures r.Ok? && !old(IsAwaited(image)) ==>
                && byTag == old(byTag)[image.tag := image]
                && multiset(Everything(byType)) == multiset(Everything(old(byType))) + multiset{image}
                && (forall i | i in old(Told(image, universe)) :: KnowsOf(i, image.tag))
      ensures r.Ok? && (old(IsAwaited(image)) || (old(TagsApart(members)) && image.tag !in old(byTag))) ==>
                forall i | i in members && i.digest == image.digest && i != image :: KnowsOf(i, image.tag)
      ensures r.Ok? && image.digest in old(byDigest) && old(byDigest)[image.digest].tag == image.tag ==>
                image.tag in image.aliases && image.tag in old(byDigest)[image.digest].aliases
      ensures r.Ok? && !old(image.IsPossibleAlias()) && !old(IsAwaited(image)) ==>
                forall i | i in old(members) && i != image ::
                  i.aliasTarget == if && i in old(Told(image, universe)) && image.digest in old(byDigest)
                                      && old(i.aliasTarget) == Some(old(byDigest)[image.digest].tag)
                                   then Some(image.tag) else old(i.aliasTarget)
      ensures r.Ok? && !old(image.IsPossibleAlias()) ==>
                (Tidy(image.digest) <==> old(Tidy(image.digest)) || image.digest in old(unresolved))
      ensures old(image.IsPossibleAlias()) ==>
                (image.digest in unresolved <==>
                   image.digest in old(unresolved)
                   || (image.digest in old(byDigest) && old(byDigest[image.digest].IsPossibleAlias())))
      ensures old(image.IsPossibleAlias()) ==>
                image.aliasTarget == if image.digest in old(byDigest) && !old(byDigest[image.digest].IsPossibleAlias())
                                     then Some(old(byDigest)[image.digest].tag) else old(image.aliasTarget)
      ensures image.digest !in old(byDigest) && !old(IsAwaited(image)) ==> Snapshot(universe) == old(Snapshot(universe))
    {
      hide ImageOk, AllOk, IndexOk, FrontsAt, FoundAt, Snapshot, OnlyGrown, Star, ListedOnce, Clash, Clashes, Rebuilt, Resolved, Joined, Told,
           TagsApart, Listing;
      ghost var met := image.digest in byDigest;
      ghost var front := if met then byDigest[image.digest] else image;
      NewTag(this, image, universe, reg);
      JoinedIs(this, image, reg);
      after := Joined(image, reg);
      if IsAwaited(image) {
        r, after := AddAwaited(image, universe, reg);
      } else if image.IsPossibleAlias() {
        r := AddFollower(image, universe, reg);
        if met {
          TwinsOwn(image, front, universe, reg, after);
        }
      } else {
        r := AddLeader(image, universe, reg);
        if met {
          TwinsOwn(image, front, universe, reg, after);
        }
      }
    }

    /** The images that `mark_image_seen_on_node` visits. */
    ghost predicate Reached(i: RSPImage, digest: string)
      reads this
    {
      i.digest == digest && digest in byDigest && (i == byDigest[digest] || (i.tag in byTag && byTag[i.tag] == i))
    }

    /**
     `mark_image_seen_on_node` visits one image and its aliases. It reaches no image of another
     digest, and of the digest every one but those that are neither in front nor found by
     their tag, because another one has it.
     */
    method MarkImageSeenOnNode(digest: string, node: string, imageSize: Option<nat>, ghost reg: Registry)
      requires Star(reg)
      modifies members`nodes, members`size
      ensures Star(reg)
      ensures forall i | i in members ::
                if Reached(i, digest) then i.Seen(node, imageSize, old(i.nodes), old(i.size))
                else i.nodes == old(i.nodes) && i.size == old(i.size)
      ensures old(TagsApart(members)) ==> forall i | i in members :: Reached(i, digest) <==> i.digest == digest
    {
      hide ImageOk, AllOk, FrontsAt, FoundAt, IndexOk, Star, TagsApart, Reached, HeldUnder, TagsOk, SetOf, Listing, Snapshot;
      ReachedAre(this, digest, reg);
      if digest !in byDigest {
        return;
      }
      var image := byDigest[digest];
      ghost var seen := {image};
      NobodyHeld(byTag, members);
      image.SeenOn(node, imageSize);
      var todo := image.aliases;
      assert image.aliases - todo == {};
      while todo != {}
        invariant todo <= image.aliases
        invariant seen == {image} + HeldUnder(byTag, members, image.aliases - todo)
        invariant forall i | i in members ::
                    if i in seen then i.Seen(node, imageSize, old(i.nodes), old(i.size)) else i.nodes == old(i.nodes) && i.size == old(i.size)
        decreases todo
      {
        var alias :| alias in todo;
        NextHeld(byTag, members, image.aliases - todo, alias);
        assert image.aliases - (todo - {alias}) == image.aliases - todo + {alias};
        todo := todo - {alias};
        if alias in byTag {
          byTag[alias].SeenOn(node, imageSize);
          seen := seen + {byTag[alias]};
        }
      }
      assert image.aliases - todo == image.aliases;
    }

    /** The images the three counts of `subset` pick. */
    ghost function Picked(releases: nat, weeklies: nat, dailies: nat, removeArch: bool): seq<RSPImage>
      reads this, ListOf(byType, Release), ListOf(byType, Weekly),
            ListOf(byType, Daily)
    {
      FirstOf(ListOf(byType, Release), releases, removeArch) + FirstOf(ListOf(byType, Weekly), weeklies, removeArch)
      + FirstOf(ListOf(byType, Daily), dailies, removeArch)
    }

    /** The members with these names. */
    method Included(names: set<string>) returns (list: seq<RSPImage>)
      requires IndexOk(byTag, byType, members)
      ensures DistinctTags(list) && SetOf(list) == NamedIn(byTag, names)
    {
      list := [];
      var todo := names;
      while todo != {}
        invariant todo <= names && DistinctTags(list) && SetOf(list) == NamedIn(byTag, names - todo)
        decreases todo
      {
        var name :| name in todo;
        NamedNext(byTag, names - todo, name);
        todo := todo - {name};
        assert names - todo == names - (todo + {name}) + {name};
        if name in byTag {
          Appended(list, byTag[name]);
          list := list + [byTag[name]];
        }
      }
      assert names - todo == names;
    }

    /** The images of a subset in the order in which they are put into the new collection. */
    method SubsetList(releases: nat, weeklies: nat, dailies: nat, included: set<string>, removeArch: bool, ghost reg: Registry)
      returns (all: seq<RSPImage>)
      requires Star(reg)
      ensures ListsBoth(all, old(Picked(releases, weeklies, dailies, removeArch)), NamedIn(byTag, included))
      ensures SetOf(all) <= members && InMenuOrder(all) && (TagsApart(members) ==> TagsApart(SetOf(all)))
      ensures ListedOnce(byType) && TagsApart(members) ==> DistinctTags(old(Picked(releases, weeklies, dailies, removeArch)))
      ensures SetOf(all) == SetOf(old(Picked(releases, weeklies, dailies, removeArch))) + NamedIn(byTag, included)
      ensures multiset(all) ==
                multiset(old(FirstOf(ListOf(byType, Release), releases, removeArch)))
                + multiset(old(FirstOf(ListOf(byType, Weekly), weeklies, removeArch)))
                + multiset(old(FirstOf(ListOf(byType, Daily), dailies, removeArch)))
                + multiset(NamedIn(byTag, included))
    {
      hide *;
      PickedIs(this, releases, weeklies, dailies, removeArch);
      StarParts(this, reg);
      PickedAre(this, releases, weeklies, dailies, removeArch);
      IndexLists(byTag, byType, members);
      NamedAre(byTag, included);
      var tags := Pick(releases, weeklies, dailies, removeArch);
      var more := Included(included);
      SetOfSum(tags, more);
      MembersParsed(this, tags + more, reg);
      all := Relist(tags + more);
      BothListed(tags, more, all);
      FewerTags(all, members);
      CountsBoth(all, old(FirstOf(ListOf(byType, Release), releases, removeArch)), old(FirstOf(ListOf(byType, Weekly), weeklies, removeArch)),
                 old(FirstOf(ListOf(byType, Daily), dailies, removeArch)), SetOf(more));
    }

    /**
     `subset`. The images are shared with this collection. It fails exactly if the list of what
     is picked and included clashes, which happens only if some image of it is its own alias
     already and has another one of its digest beside it; this collection keeps its star even
     then.

     Else every digest of the result has an image in front that knows the others, whatever
     names are included. An image that is both picked by count and included by name is listed
     twice. Where no two members have one tag and none is its own alias, exactly those become
     it that are both picked and included and in front of their digest; in front is one that
     no other image of the digest, aliases aside, comes before in a menu.
     */
    method Subset(releases: nat, weeklies: nat, dailies: nat, included: set<string>, removeArch: bool,
                  ghost universe: set<RSPImage>, ghost reg: Registry)
      returns (r: Result<RSPImageCollection, ImageError>, ghost after: Registry, ghost all: seq<RSPImage>)
      requires Star(reg) && members <= universe && AllOk(universe, reg)
      modifies universe`aliases, universe`imageType, universe`aliasTarget, universe`cycle, universe`architecture, universe`date
      ensures ListsBoth(all, old(Picked(releases, weeklies, dailies, removeArch)), NamedIn(byTag, included))
      ensures multiset(all) ==
                multiset(old(FirstOf(ListOf(byType, Release), releases, removeArch)))
                + multiset(old(FirstOf(ListOf(byType, Weekly), weeklies, removeArch)))
                + multiset(old(FirstOf(ListOf(byType, Daily), dailies, removeArch)))
                + multiset(NamedIn(byTag, included))
      ensures InMenuOrderAt(old(Snapshot(universe)), all) && SetOf(all) <= members
      ensures if Clashes(all, old(Snapshot(universe))) then r == Err(SetChangedDuringIteration) else r.Ok?
      ensures Lone(members, reg) ==> r.Ok?
      ensures Star(after) && AllOk(universe, after) && OnlyGrown(old(Snapshot(universe)))
      ensures r.Ok? ==> fresh(r.value) && r.value.Star(after) && r.value.members == SetOf(all)
      ensures r.Ok? ==> ListsBoth(Everything(r.value.byType), old(Picked(releases, weeklies, dailies, removeArch)), NamedIn(byTag, included))
      ensures r.Ok? ==> after == Resolved(reg, all, r.value.byDigest)
      ensures r.Ok? && TagsApart(members) ==>
                after == SubsetRegistry(reg, old(Picked(releases, weeklies, dailies, removeArch)), NamedIn(byTag, included), r.value.byDigest)
      ensures r.Ok? && old(ListedOnce(byType)) && TagsApart(members) && reg.own !! members ==>
                && (forall i | i in r.value.members ::
                      i.tag in i.aliases <==>
                        && i in SetOf(old(Picked(releases, weeklies, dailies, removeArch))) && i in NamedIn(byTag, included)
                        && i.digest in r.value.byDigest && r.value.byDigest[i.digest] == i)
                && (ListedOnce(r.value.byType) <==>
                      SetOf(old(Picked(releases, weeklies, dailies, removeArch))) !! NamedIn(byTag, included))
      ensures r.Ok? ==> FirstInMenu(r.value.members, r.value.byDigest, old(Snapshot(universe)))
      ensures r.Ok? && SetOf(all) <= old(PlainAmong(universe)) ==>
                PassKnows(all, |all|, old(Snapshot(universe)), Snapshot(universe), r.value.byDigest)
    {
      hide *;
      ghost var before, was := Snapshot(universe), Snapshot(members);
      ghost var picked, named, once := Picked(releases, weeklies, dailies, removeArch), NamedIn(byTag, included), ListedOnce(byType) && TagsApart(members);
      StarParts(this, reg);
      SnapshotPlain(universe);
      SnapshotPlain(members);
      var list := SubsetList(releases, weeklies, dailies, included, removeArch, reg);
      all := list;
      MenuOrderNow(list, universe);
      OfAnyCycle(list);
      LoneNeverClashes(list, members, universe, reg);
      r, after := Make(list, None, universe, reg);
      StarKept(this, before, was, after);
      if r.Err? {
        return;
      }
      SettledMeans(list, before, r.value.byDigest, r.value.unresolved.Keys, reg);
      MembersFound(r.value, after);
      BothRegistered(reg, list, picked, named, r.value.byDigest);
      FrontsAreFirst(list, before, r.value.byDigest);
      StillBoth(list, Everything(r.value.byType), picked, named);
      if once && reg.own !! members {
        SubsetOwn(r.value, picked, named, reg, after);
      }
    }

    method Pick(releases: nat, weeklies: nat, dailies: nat, removeArch: bool) returns (tags: seq<RSPImage>)
      ensures tags == old(Picked(releases, weeklies, dailies, removeArch))
    {
      hide ListOf, FirstOf;
      tags := FirstImages(ListOf(byType, Release), releases, removeArch);
      assert tags == old(FirstOf(ListOf(byType, Release), releases, removeArch));
      var more := FirstImages(ListOf(byType, Weekly), weeklies, removeArch);
      assert more == old(FirstOf(ListOf(byType, Weekly), weeklies, removeArch));
      tags := tags + more;
      more := FirstImages(ListOf(byType, Daily), dailies, removeArch);
      assert more == old(FirstOf(ListOf(byType, Daily), dailies, removeArch));
      tags := tags + more;
    }

    /** A tag collection of the tags, and all its tags in its order. */
    static method Relist(tags: seq<RSPImage>) returns (all: seq<RSPImage>)
      ensures multiset(all) == multiset(tags)
      ensures (forall i | i in tags :: WellParsed(i.Key())) ==> InMenuOrder(all)
    {
      hide Listing, WellParsed, NewestFirst, Visible, InMenuOrder;
      var byType := SeriesByType(tags);
      all := ImageLists.AllImages(byType, false);
      AllVisible(Everything(byType));
      if forall i | i in tags :: WellParsed(i.Key()) {
        ListingOrdered(byType, KINDS);
      }
    }

    /** The digests `subtract` takes away: those of the images that are not for one architecture. */
    ghost function GenericDigests(): set<string>
      reads this, Everything(byType)
    {
      DigestsOf(Visible(Everything(byType), true))
    }

    /** What `subtract` leaves: one image for each digest that the other collection has no generic image of. */
    method Remaining(other: RSPImageCollection, ghost reg: Registry)
      returns (list: seq<RSPImage>, ghost left: map<string, RSPImage>)
      requires Star(reg)
      ensures left == byDigest - old(other.GenericDigests()) && forall d | d in left :: left[d].digest == d
      ensures DistinctTags(list) && SetOf(list) == left.Values <= members && forall d :: !SharesDigest(list, d)
    {
      hide ImageOk, AllOk, FrontsAt, DistinctTags, SetOf, IndexOk, Star, SharesDigest, Visible, DigestsOf;
      StarParts(this, reg);
      MembersFound(this, reg);
      var all := other.ImagesShown(true);
      var candidates := WithoutDigests(byDigest, all);
      list := ValuesOf(candidates);
      OneEach(list, members, reg);
      left := candidates;
    }

    /** `subtract` */
    method Subtract(other: RSPImageCollection, ghost universe: set<RSPImage>, ghost reg: Registry)
      returns (r: RSPImageCollection)
      requires Star(reg) && members <= universe && AllOk(universe, reg)
      modifies universe`aliases, universe`imageType, universe`aliasTarget, universe`cycle, universe`architecture, universe`date
      ensures fresh(r) && r.Star(reg) && Star(reg) && AllOk(universe, reg)
      ensures forall i | i in universe :: i.State() == old(i.State())
      ensures r.byDigest == byDigest - old(other.GenericDigests())
      ensures forall d | d in byDigest ::
                if old(exists i | i in Everything(other.byType) :: i.digest == d && i.architecture.GetOr("") == "") then d !in r.byDigest
                else d in r.byDigest && r.byDigest[d] == byDigest[d]
      ensures r.members == r.byDigest.Values && ListedOnce(r.byType) && TagsApart(r.members)
    {
      hide *;
      ghost var before, was := Snapshot(universe), Snapshot(members);
      StarParts(this, reg);
      SnapshotPlain(universe);
      SnapshotPlain(members);
      forall d ensures d in other.GenericDigests() <==>
                       exists i | i in Everything(other.byType) :: i.digest == d && i.architecture.GetOr("") == "" {
        GenericTells(other, d);
      }
      ghost var left;
      var list;
      list, left := Remaining(other, reg);
      DistinctApart(list);
      OfAnyCycle(list);
      ApartNeverClashes(list, before);
      ghost var after;
      var made;
      made, after := Make(list, None, universe, reg);
      r := made.value;
      CountedOnce(r.byType, list);
      NeverTwice(list, r.byDigest, reg);
      SettledMeans(list, before, r.byDigest, r.unresolved.Keys, reg);
      StarKept(this, before, was, reg);
      MembersFound(r, reg);
      SameFronts(r.byDigest, r.members, left);
    }
  }

  /** The first alias of its digest. */
  method AddFirstAlias(c: RSPImageCollection, alias: RSPImage, ghost universe: set<RSPImage>, ghost reg: Registry)
    requires c.Star(reg) && c.members + {alias} <= universe && AllOk(universe, reg)
    requires alias.IsPossibleAlias() && alias.aliasTarget.None? && alias.digest !in c.byDigest
    modifies c
    modifies universe`aliases, universe`imageType, universe`aliasTarget, universe`cycle, universe`architecture, universe`date
    ensures c.Star(reg) && AllOk(universe, reg) && Snapshot(universe) == old(Snapshot(universe))
    ensures c.members == old(c.members) + {alias} && alias.digest !in c.unresolved && !c.Tidy(alias.digest)
    ensures alias.digest in c.byDigest && c.byDigest[alias.digest] == alias
  {
    hide *;
    SnapshotFields(universe);
    StarParts(c, reg);
    NobodyAwaits(c, alias, alias);
    JoinedIs(c, alias, reg);
    AddMayFail(c, alias, universe);
    ghost var after;
    var r;
    r, after := c.Add(alias, universe, reg);
    SnapshotFields(universe);
    NotTidy(c, alias);
  }

  /**
   An alias that `add` puts into a collection before the image it names: when that image is
   added too, it comes to the front, but the alias gets no target.
   */
  method AddedAliasStaysUnresolved(c: RSPImageCollection, alias: RSPImage, image: RSPImage,
                                   ghost universe: set<RSPImage>, ghost reg: Registry)
    returns (r: Result<(), ImageError>)
    requires c.Star(reg) && c.members + {alias, image} <= universe && AllOk(universe, reg)
    requires alias.digest == image.digest && image.digest !in c.byDigest
    requires alias.IsPossibleAlias() && alias.aliasTarget.None? && !image.IsPossibleAlias()
    modifies c
    modifies universe`aliases, universe`imageType, universe`aliasTarget, universe`cycle, universe`architecture, universe`date
    ensures alias !in reg.own ==> r.Ok?
    ensures c.Star(reg)
    ensures r.Ok? ==> c.members == old(c.members) + {alias, image}
    ensures r.Ok? ==> c.byDigest[image.digest] == image && !c.Tidy(image.digest)
  {
    hide *;
    SnapshotFields(universe);
    SameKind(alias, image, universe, reg);
    AddFirstAlias(c, alias, universe, reg);
    SnapshotFields(universe);
    NotOwnNoClash(c.byTag, image, alias, universe, reg);
    NobodyAwaits(c, alias, image);
    AddMayFail(c, image, universe);
    SelfedNot(c, image, reg);
    ghost var after;
    r, after := c.Add(image, universe, reg);
  }

  /** Whether adding builds the collection again, and whether it fails, for images that nobody waits for. */
  lemma NobodyAwaits(c: RSPImageCollection, alias: RSPImage, image: RSPImage)
    requires alias.digest == image.digest && alias.IsPossibleAlias()
    ensures !c.IsAwaited(alias) && (image.digest !in c.unresolved ==> !c.IsAwaited(image))
    ensures FrontsAt(Snapshot(c.members), c.byDigest, c.unresolved.Keys) && image.digest !in c.byDigest ==> image.digest !in c.unresolved
  {
  }

  lemma AddMayFail(c: RSPImageCollection, image: RSPImage, universe: set<RSPImage>)
    ensures image.IsPossibleAlias() ==> !c.AddFails(image, universe)
    ensures image.digest !in c.unresolved && (image.digest in c.byDigest ==> !Clash(c.byTag, image, c.byDigest[image.digest])) ==>
              !c.AddFails(image, universe)
  {
    hide Clash, Clashes;
  }

  lemma SettledMeans(images: seq<RSPImage>, before: map<RSPImage, Saved>, byDigest: map<string, RSPImage>, waiting: set<string>, reg: Registry)
    requires Settled(images, before, byDigest, waiting, reg)
    ensures AllOk(before.Keys, Resolved(reg, images, byDigest)) && OnlyGrown(before)
    ensures AliasesResolved(images, PlainBefore(before), byDigest)
    ensures forall i | i in before && !SharesDigest(images, i.digest) :: i.State() == before[i]
  {
  }

  /** A list of images none of which is its own alias beside another of its digest does not clash. */
  lemma LoneNeverClashes(images: seq<RSPImage>, members: set<RSPImage>, universe: set<RSPImage>, reg: Registry)
    requires AllOk(universe, reg) && SetOf(images) <= members <= universe
    ensures Lone(members, reg) ==> !Clashes(images, Snapshot(universe))
  {
    hide ImageOk, Heard;
    if Lone(members, reg) {
      var before := Snapshot(universe);
      SnapshotFields(universe);
      forall n | 0 <= n < |images| ensures !ClashAt(images, n, before) {
        SetOfMember(images, n);
        OwnDigest(images[n], reg);
      }
    }
  }

  lemma ApartNeverClashes(images: seq<RSPImage>, before: map<RSPImage, Saved>)
    requires forall d :: !SharesDigest(images, d)
    ensures !Clashes(images, before)
  {
    hide Heard;
    forall n | 0 <= n < |images| ensures !ClashAt(images, n, before) {
      assert !SharesDigest(images, images[n].digest);
    }
  }

  /** Whoever a new image meets in front of its digest. */
  lemma NewMeets(c: RSPImageCollection, image: RSPImage, universe: set<RSPImage>, reg: Registry)
    requires c.Star(reg) && c.members + {image} <= universe && AllOk(universe, reg)
    ensures TagsOk(c.byTag, universe) && c.byTag.Values <= c.members && forall i | i in c.members :: i.tag in c.byTag
    ensures forall i | i in c.members && i.tag == image.tag :: i.digest == image.digest
    ensures image.digest in c.byDigest ==>
              var rep := c.byDigest[image.digest];
              && rep in c.members && rep.digest == image.digest && Snapshot(universe)[rep].aliasTarget != Some(rep.tag)
              && (rep.tag == image.tag ==> (rep.IsPossibleAlias() <==> image.IsPossibleAlias()))
    ensures c.Told(image, universe) == if image.digest in c.byDigest
              then {c.byDigest[image.digest]} + HeldUnder(c.byTag, universe, c.byDigest[image.digest].aliases - {image.tag}) else {}
  {
    hide *;
    StarParts(c, reg);
    MembersFound(c, reg);
    IndexTagsOk(c.byTag, c.byType, c.members, universe);
    SnapshotFields(universe);
    TargetsBefore(universe, reg);
    ToldIs(c, image, universe);
    forall i | i in c.members && i.tag == image.tag ensures i.digest == image.digest && (i.IsPossibleAlias() <==> image.IsPossibleAlias()) {
      SameKind(i, image, universe, reg);
    }
  }

  lemma ToldIs(c: RSPImageCollection, image: RSPImage, universe: set<RSPImage>)
    ensures c.Told(image, universe) == if image.digest in c.byDigest
              then {c.byDigest[image.digest]} + HeldUnder(c.byTag, universe, c.byDigest[image.digest].aliases - {image.tag}) else {}
  {
  }

  /** Images with one tag are alike. */
  lemma SameKind(i: RSPImage, j: RSPImage, universe: set<RSPImage>, reg: Registry)
    requires AllOk(universe, reg) && i in universe && j in universe
    ensures i.tag == j.tag ==> i.digest == j.digest && (i.IsPossibleAlias() <==> j.IsPossibleAlias())
  {
    assert ImageOk(i, reg) && ImageOk(j, reg);
  }

  lemma JoinedIs(c: RSPImageCollection, image: RSPImage, reg: Registry)
    ensures c.Joined(image, reg) == if image.digest in c.byDigest then Selfed(reg, image, c.byDigest[image.digest]) else reg
  {
  }

  /** Where everybody stands once a new image has come to the front of its digest. */
  lemma LeaderIn(byTag: map<string, RSPImage>, image: RSPImage, members: set<RSPImage>, was: map<RSPImage, Saved>,
                 before: map<RSPImage, Saved>, placed: map<string, RSPImage>, waiting: set<string>, names: set<string>,
                 told: set<RSPImage>, universe: set<RSPImage>)
    requires members + {image} <= universe == before.Keys && image.digest !in waiting && !image.IsPossibleAlias()
    requires forall i | i in members && i.tag == image.tag :: i.digest == image.digest
    requires FrontsAt(was, placed, waiting) && FoundAt(was, byTag, placed)
    requires was.Keys == members && forall i | i in members :: was[i] == before[i]
    requires forall i | i in members :: i.tag in byTag
    requires Widened(before, Snapshot(universe), image.digest)
    requires told == if image.digest in placed then {placed[image.digest]} + HeldUnder(byTag, universe, names) else {}
    requires image.digest !in placed ==> Snapshot(universe) == before
    requires image.digest in placed ==>
               var rep := placed[image.digest];
               && rep in members && names == before[rep].aliases - {image.tag} && rep.tag in image.aliases
               && (rep != image ==> image.tag in rep.aliases) && before[rep].aliasTarget != Some(rep.tag)
               && (forall a | a in names && a in byTag :: a in image.aliases)
               && (forall i | i in HeldUnder(byTag, universe, names) :: KnowsOf(i, image.tag))
               && forall i | i in universe && i != image ::
                    i.aliasTarget == if i in HeldUnder(byTag, universe, names) && before[i].aliasTarget == Some(rep.tag)
                                     then Some(image.tag) else before[i].aliasTarget
    ensures FrontsAt(Snapshot(members + {image}), placed[image.digest := image], waiting)
    ensures FoundAt(Snapshot(members + {image}), byTag[image.tag := image], placed[image.digest := image])
    ensures forall i | i in told :: KnowsOf(i, image.tag)
    ensures forall i | i in members && i != image ::
              i.aliasTarget == if i in told then Redirected(before[i].aliasTarget, placed, image) else before[i].aliasTarget
  {
    hide FrontsAt, FoundAt, HeldUnder;
    SnapshotFields(universe);
    SnapshotFields(members + {image});
    LeaderStands(was, placed, waiting, image, Snapshot(members + {image}));
    LeaderFound(was, byTag, placed, waiting, image, Snapshot(members + {image}));
  }

  lemma LeaderFound(was: map<RSPImage, Saved>, byTag: map<string, RSPImage>, byDigest: map<string, RSPImage>, waiting: set<string>,
                    image: RSPImage, now: map<RSPImage, Saved>)
    requires FoundAt(was, byTag, byDigest) && FrontsAt(was, byDigest, waiting) && Grown(was, now) && image in now
    requires forall i | i in was && i.tag == image.tag :: i.digest == image.digest
    ensures FoundAt(now, byTag[image.tag := image], byDigest[image.digest := image])
  {
  }

  /** Where everybody stands once a possible alias has come behind whoever is in front of its digest. */
  lemma FollowerIn(byTag: map<string, RSPImage>, image: RSPImage, members: set<RSPImage>, was: map<RSPImage, Saved>,
                   before: map<RSPImage, Saved>, placed: map<string, RSPImage>, waiting: set<string>,
                   universe: set<RSPImage>, byDigest: map<string, RSPImage>, waiting': set<string>)
    requires members + {image} <= universe == before.Keys
    requires forall i | i in members && i.tag == image.tag :: i.digest == image.digest
    requires FrontsAt(was, placed, waiting) && FoundAt(was, byTag, placed)
    requires was.Keys == members && forall i | i in members :: was[i] == before[i]
    requires image.IsPossibleAlias() && MayBeAlias(before[image].imageType)
    requires forall i | i in universe :: before[i].aliases <= i.aliases
    requires forall i | i in universe && i != image :: i.imageType == before[i].imageType && i.aliasTarget == before[i].aliasTarget
    requires before[image].aliasTarget.Some? ==> image.aliasTarget.Some?
    requires GenericBefore(before) ==> NoArchitectures(universe)
    requires byDigest == if image.digest in placed then placed else placed[image.digest := image]
    requires image.digest !in placed ==> waiting' == waiting
    requires image.digest in placed ==>
               var rep := placed[image.digest];
               && rep in members && image.tag in rep.aliases
               && waiting' == waiting + if MayBeAlias(before[rep].imageType) then {image.digest} else {}
    ensures OnlyGrown(before) && FrontsAt(Snapshot(members + {image}), byDigest, waiting')
    ensures FoundAt(Snapshot(members + {image}), byTag[image.tag := image], byDigest)
  {
    hide FrontsAt, FoundAt, HeldUnder, OnlyGrown;
    SnapshotFields(universe);
    SnapshotFields(members + {image});
    OnlyOneChanged(before, image);
    FollowerStands(was, placed, waiting, image, Snapshot(members + {image}), byDigest, waiting');
    FollowerFound(was, byTag, placed, waiting, image, Snapshot(members + {image}), byDigest);
  }

  lemma FollowerFound(was: map<RSPImage, Saved>, byTag: map<string, RSPImage>, byDigest: map<string, RSPImage>, waiting: set<string>,
                      image: RSPImage, now: map<RSPImage, Saved>, byDigest': map<string, RSPImage>)
    requires FoundAt(was, byTag, byDigest) && FrontsAt(was, byDigest, waiting) && Grown(was, now) && image in now
    requires forall i | i in was && i.tag == image.tag :: i.digest == image.digest
    requires byDigest' == if image.digest in byDigest then byDigest else byDigest[image.digest := image]
    requires image.digest in byDigest ==> image.tag in now[byDigest[image.digest]].aliases
    ensures FoundAt(now, byTag[image.tag := image], byDigest')
  {
  }

  /** An image and the one that it takes the place of learn each other's tag, which may be their own. */
  lemma TwinsLearn(universe: set<RSPImage>, before: map<RSPImage, Saved>, image: RSPImage, front: RSPImage, held: set<RSPImage>)
    requires before.Keys == universe && front in universe && before[front].aliasTarget != Some(front.tag)
    requires Overtaken(before, Snapshot(universe), image, front, held, held + {front})
    ensures front.tag in image.aliases && (image != front ==> image.tag in front.aliases)
  {
    SnapshotFields(universe);
  }

  /** Images with one tag that took over each other's aliases are aliases of themselves. */
  lemma TwinsOwn(image: RSPImage, front: RSPImage, universe: set<RSPImage>, reg: Registry, after: Registry)
    requires AllOk(universe, after) && image in universe && front in universe && after == Selfed(reg, image, front)
    ensures image.tag == front.tag ==> image.tag in image.aliases && image.tag in front.aliases
  {
    OwnDigest(image, after);
    OwnDigest(front, after);
  }

  /** What adding an image means where its tag is new. */
  lemma NewTag(c: RSPImageCollection, image: RSPImage, universe: set<RSPImage>, reg: Registry)
    requires c.Star(reg) && c.members + {image} <= universe && AllOk(universe, reg)
    ensures image.digest in c.byDigest ==> c.byDigest[image.digest] in universe
    ensures image.tag !in c.byTag ==> image !in c.members && c.Joined(image, reg) == reg
    ensures TagsApart(c.members) && image.tag !in c.byTag ==>
              && TagsApart(c.members + {image})
              && forall i | i in c.members && i.digest == image.digest :: i in c.Told(image, universe)
    ensures c.IsAwaited(image) && image.digest in c.byDigest ==> c.byDigest[image.digest].tag != image.tag
  {
    hide *;
    NewMeets(c, image, universe, reg);
    JoinedIs(c, image, reg);
    SelfedNot(c, image, reg);
    if c.IsAwaited(image) {
      AwaitedFront(c, image, reg);
    }
    if TagsApart(c.members) && image.tag !in c.byTag {
      StillApart(c.members, image);
      forall i | i in c.members && i.digest == image.digest ensures i in c.Told(image, universe) {
        ToldEach(c, image, i, universe, reg);
      }
    }
  }

  lemma SelfedNot(c: RSPImageCollection, image: RSPImage, reg: Registry)
    ensures image.digest in c.byDigest && c.byDigest[image.digest].tag != image.tag ==> c.Joined(image, reg) == reg
  {
  }

  lemma AwaitedFront(c: RSPImageCollection, image: RSPImage, reg: Registry)
    requires c.Star(reg) && c.IsAwaited(image)
    ensures image.digest in c.byDigest && c.byDigest[image.digest].IsPossibleAlias() && !image.IsPossibleAlias()
  {
    hide Listing, ImageOk;
    SnapshotFields(c.members);
  }

  lemma StillApart(members: set<RSPImage>, image: RSPImage)
    requires TagsApart(members) && forall i | i in members :: i.tag != image.tag
    ensures TagsApart(members + {image})
  {
  }

  /** Where no two members have one tag, everybody of its digest learns of a new image. */
  lemma ToldEach(c: RSPImageCollection, image: RSPImage, i: RSPImage, universe: set<RSPImage>, reg: Registry)
    requires c.Star(reg) && c.members <= universe && TagsApart(c.members) && image.tag !in c.byTag
    requires i in c.members && i.digest == image.digest
    ensures i in c.Told(image, universe)
  {
    hide ImageOk, Listing;
    SnapshotFields(c.members);
    MembersFound(c, reg);
    MembersApart(c, reg);
  }

  lemma MembersParsed(c: RSPImageCollection, images: seq<RSPImage>, reg: Registry)
    requires c.Star(reg) && SetOf(images) <= c.members
    ensures forall i | i in images :: WellParsed(i.Key())
  {
    hide WellParsed, IndexOk, FrontsStand;
    forall i | i in images ensures WellParsed(i.Key()) {
      assert i in SetOf(images) && ImageOk(i, reg);
    }
  }

  /** A list of what three counts take and of what is named has every image as often as they take it. */
  lemma CountsBoth(all: seq<RSPImage>, a: seq<RSPImage>, b: seq<RSPImage>, d: seq<RSPImage>, named: set<RSPImage>)
    requires ListsBoth(all, a + b + d, named)
    ensures multiset(all) == multiset(a) + multiset(b) + multiset(d) + multiset(named)
  {
    var picked := a + b + d;
    forall i ensures multiset(all)[i] == multiset(picked)[i] + multiset(named)[i] {
      assert i in SetOf(all) <==> i in all;
      assert i in SetOf(picked) <==> i in picked;
    }
    assert multiset(all) == multiset(picked) + multiset(named);
  }

  lemma PickedIs(c: RSPImageCollection, releases: nat, weeklies: nat, dailies: nat, removeArch: bool)
    ensures c.Picked(releases, weeklies, dailies, removeArch) ==
            FirstOf(ListOf(c.byType, Release), releases, removeArch) + FirstOf(ListOf(c.byType, Weekly), weeklies, removeArch)
            + FirstOf(ListOf(c.byType, Daily), dailies, removeArch)
  {
    hide FirstOf, ListOf;
  }

  /** The members with some names are those that are found under one of them. */
  lemma NamedTells(c: RSPImageCollection, names: set<string>, i: RSPImage, reg: Registry)
    requires c.Star(reg)
    ensures i in NamedIn(c.byTag, names) <==> i.tag in names && i.tag in c.byTag && c.byTag[i.tag] == i
  {
    MembersFound(c, reg);
  }

  /**
   What one count takes of a collection whose lists are in order, as a new one's are: shown
   members of its type only, no more than asked for; and a shown member of the type is left
   out only if as many are taken as asked for, none of them older.
   */
  lemma CountTakes(c: RSPImageCollection, t: ImageType, total: nat, removeArch: bool, i: RSPImage, reg: Registry)
    requires c.Star(reg) && TypesFit(c.byType) && forall u | u in c.byType :: NewestFirst(c.byType[u])
    ensures var taken := FirstOf(ListOf(c.byType, t), total, removeArch);
            && |taken| <= total
            && (i in taken ==> i in c.members && i.imageType == t && (removeArch ==> i.architecture.GetOr("") == ""))
            && (i in c.members && i.imageType == t && (removeArch ==> i.architecture.GetOr("") == "") && i !in taken ==>
                  |taken| == total && forall j | j in taken :: Compare(i.Key(), j.Key()) <= 0)
  {
    hide IndexOk, FrontsAt, FoundAt, AllOk, FirstOf, Compare, Listing, TypesFit, NewestFirst;
    var list := ListOf(c.byType, t);
    InOrderAlways(c.byType, t);
    FirstImagesAreTheGreatest(list, total, removeArch, i);
    MembersFound(c, reg);
    ListedIn(c.byType, t);
    MemberOfType(c.byType, t, i);
  }

  lemma InOrderAlways(byType: map<ImageType, seq<RSPImage>>, t: ImageType)
    requires forall u | u in byType :: NewestFirst(byType[u])
    ensures NewestFirst(ListOf(byType, t))
  {
  }

  /** Where every list has images of its own type only, an image is listed under its type. */
  lemma MemberOfType(byType: map<ImageType, seq<RSPImage>>, t: ImageType, i: RSPImage)
    requires TypesFit(byType)
    ensures i in ListOf(byType, t) ==> i.imageType == t
    ensures i in SetOf(Everything(byType)) && i.imageType == t ==> i in ListOf(byType, t)
  {
    if i in SetOf(Everything(byType)) && i.imageType == t {
      InSomeList(byType, KINDS, i);
    }
  }

  lemma {:induction false} InSomeList(byType: map<ImageType, seq<RSPImage>>, n: nat, i: RSPImage)
    requires n <= KINDS && TypesFit(byType) && i in Listing(byType, n)
    ensures i in ListOf(byType, i.imageType)
  {
    hide TypeAt;
    if i in Listing(byType, n - 1) {
      InSomeList(byType, n - 1, i);
    } else {
      assert i in ListOf(byType, TypeAt(n - 1));
    }
  }

  lemma FewerTags(images: seq<RSPImage>, members: set<RSPImage>)
    requires SetOf(images) <= members
    ensures TagsApart(members) ==> TagsApart(SetOf(images))
  {
  }

  lemma StillBoth(all: seq<RSPImage>, listed: seq<RSPImage>, picked: seq<RSPImage>, named: set<RSPImage>)
    requires ListsBoth(all, picked, named) && multiset(listed) == multiset(all)
    ensures ListsBoth(listed, picked, named)
  {
    SameCounts(listed, all);
  }

  /** Which images of a subset are their own aliases, and when it lists none twice. */
  lemma SubsetOwn(r: RSPImageCollection, picked: seq<RSPImage>, named: set<RSPImage>, reg: Registry, after: Registry)
    requires r.Star(after) && after == SubsetRegistry(reg, picked, named, r.byDigest) && reg.own !! r.members
    requires DistinctTags(picked) && ListsBoth(Everything(r.byType), picked, named)
    ensures forall i | i in r.members ::
              i.tag in i.aliases <==> i in SetOf(picked) && i in named && i.digest in r.byDigest && r.byDigest[i.digest] == i
    ensures ListedOnce(r.byType) <==> SetOf(picked) !! named
  {
    hide IndexOk, FrontsStand, DistinctTags, Listing;
    DistinctOnce(picked);
    forall i | i in r.members
      ensures i.tag in i.aliases <==> i in SetOf(picked) && i in named && i.digest in r.byDigest && r.byDigest[i.digest] == i
    {
      assert ImageOk(i, after);
    }
    var all := Everything(r.byType);
    if SetOf(picked) !! named {
      assert multiset(all) == multiset(SetOf(all));
    } else {
      var i :| i in SetOf(picked) && i in named;
      assert multiset(all)[i] == 2;
    }
  }

  lemma SettledIsStar(c: RSPImageCollection, images: seq<RSPImage>, before: map<RSPImage, Saved>, reg: Registry)
    requires SetOf(images) <= before.Keys && c.members == SetOf(images) && IndexOk(c.byTag, c.byType, c.members)
    requires Settled(images, before, c.byDigest, c.unresolved.Keys, reg)
    ensures c.Star(Resolved(reg, images, c.byDigest))
  {
    hide ImageOk, SetOf, AliasesResolved, IndexOk, TypesResolved, FrontsAt, FoundAt, OnlyGrown;
    var after := Resolved(reg, images, c.byDigest);
    SmallerOk(c.members, before.Keys, after);
    FrontsFound(c, images, reg);
  }

  /** Whoever is in front of a list's images is found by its tag, or has it twice in the list and so is its own alias. */
  lemma FrontsFound(c: RSPImageCollection, images: seq<RSPImage>, reg: Registry)
    requires c.members == SetOf(images) && IndexOk(c.byTag, c.byType, c.members) && AllOk(c.members, Resolved(reg, images, c.byDigest))
    requires FrontsAt(Snapshot(c.members), c.byDigest, c.unresolved.Keys)
    ensures FoundAt(Snapshot(c.members), c.byTag, c.byDigest)
  {
    hide TagTwice, Listing;
    SnapshotFields(c.members);
    forall d | d in c.byDigest
      ensures var f := c.byDigest[d]; f in c.members && f.tag in c.byTag && (c.byTag[f.tag] == f || f.tag in f.aliases)
    {
      var f := c.byDigest[d];
      TagOnce(images, f, c.byTag[f.tag]);
      OwnDigest(f, Resolved(reg, images, c.byDigest));
    }
  }

  /**
   Images with one tag in a list that a collection was built from: the first of them is in
   front of the digest, if it is the first of that digest that is no alias, the last is found
   by the tag, all are aliases of themselves, and marking the digest reaches just those two.
   */
  lemma TwinsAre(c: RSPImageCollection, images: seq<RSPImage>, before: map<RSPImage, Saved>, reg: Registry, first: RSPImage, last: RSPImage)
    requires c.Star(Resolved(reg, images, c.byDigest)) && c.members == SetOf(images) && IndexesTags(c.byTag, images)
    requires AliasesResolved(images, PlainBefore(before), c.byDigest)
    requires IsFirst(images, |images|, PlainBefore(before), first.digest, first) && Found(images, last)
    requires first in images && last in images && first.tag == last.tag && first != last
    ensures first.digest in c.byDigest && c.byDigest[first.digest] == first && first.tag in c.byTag && c.byTag[first.tag] == last
    ensures forall i | i in images && i.tag == first.tag ::
              i.tag in i.aliases && (c.Reached(i, first.digest) <==> i == first || i == last)
  {
    hide ImageOk, IndexOk, FrontsAt, FoundAt, TagTwice, IsLast, Found;
    var front := c.byDigest[first.digest];
    FirstIsOne(images, |images|, PlainBefore(before), first.digest, first, front);
    FoundIs(c.byTag, images, last);
    AllOwn(c.members, Resolved(reg, images, c.byDigest));
    forall i | i in images && i.tag == first.tag
      ensures i.tag in i.aliases && (c.Reached(i, first.digest) <==> i == first || i == last)
    {
      assert i in SetOf(images) && last in SetOf(images);
      TagOnce(images, first, last);
      OwnDigest(i, Resolved(reg, images, c.byDigest));
    }
  }

  /** How often the listing of a collection has an image, for each choice of what it hides. */
  lemma CountListed(c: RSPImageCollection, hideAliased: bool, hideArch: bool, hideResolved: bool)
    requires c.members == SetOf(Everything(c.byType))
    ensures forall i: RSPImage | i in c.members ::
              multiset(Among(Visible(Everything(c.byType), hideArch), c.ListedImages(hideAliased, hideResolved)))[i] ==
              if (hideArch && i.architecture.GetOr("") != "")
                 || (hideAliased && !i.imageType.Alias?
                     && exists a | a in i.aliases && a in c.byTag :: c.byTag[a].imageType.Alias? && c.byTag[a].aliasTarget == Some(i.tag))
                 || (hideResolved && i.aliasTarget.Some? && i.aliasTarget.value in c.byTag)
              then 0 else multiset(Everything(c.byType))[i]
  {
    hide Among, Listing, RSPImageCollection.Aliased;
    var list := Everything(c.byType);
    var shown, keep := Visible(list, hideArch), c.ListedImages(hideAliased, hideResolved);
    forall i: RSPImage | i in c.members
      ensures multiset(Among(shown, keep))[i] ==
              if (hideArch && !i.IsGeneric()) || (hideAliased && c.Aliased(i)) || (hideResolved && i.aliasTarget.Some? && i.aliasTarget.value in c.byTag)
              then 0 else multiset(Everything(c.byType))[i]
      ensures c.Aliased(i) <==>
                !i.imageType.Alias?
                && exists a | a in i.aliases && a in c.byTag :: c.byTag[a].imageType.Alias? && c.byTag[a].aliasTarget == Some(i.tag)
    {
      AmongCounts(list, Shown(SetOf(list), hideArch), i);
      AmongCounts(shown, keep, i);
      AliasedIs(c, i);
    }
  }

  lemma AliasedIs(c: RSPImageCollection, image: RSPImage)
    ensures c.Aliased(image) <==>
              !image.imageType.Alias?
              && exists a | a in image.aliases && a in c.byTag :: c.byTag[a].imageType.Alias? && c.byTag[a].aliasTarget == Some(image.tag)
  {
  }

  /** The digests of a collection's images that are not for one architecture. */
  lemma GenericTells(c: RSPImageCollection, d: string)
    ensures d in c.GenericDigests() <==> exists i | i in Everything(c.byType) :: i.digest == d && i.architecture.GetOr("") == ""
  {
    hide Among, Listing;
    var list := Everything(c.byType);
    var keep := Shown(SetOf(list), true);
    if i :| i in list && i.digest == d && i.IsGeneric() {
      assert i in SetOf(list);
      AmongContains(list, keep, i);
    }
    if d in c.GenericDigests() {
      var i :| i in Visible(list, true) && i.digest == d;
      AmongContains(list, keep, i);
    }
  }

  lemma MembersFound(c: RSPImageCollection, reg: Registry)
    requires c.Star(reg)
    ensures forall t | t in c.byTag :: c.byTag[t].tag == t && c.byTag[t] in c.members
    ensures forall i | i in c.members :: i.tag in c.byTag && c.byTag[i.tag].digest == i.digest && i.digest in c.byDigest
    ensures forall d | d in c.byDigest :: c.byDigest[d] in c.members && c.byDigest[d].digest == d
    ensures c.members == SetOf(Everything(c.byType))
  {
    hide ImageOk, Listing;
    AllOwn(c.members, reg);
  }

  /** Where no two members have one tag, each is found by its own. */
  lemma MembersApart(c: RSPImageCollection, reg: Registry)
    requires c.Star(reg)
    ensures TagsApart(c.members) ==> forall i | i in c.members :: c.byTag[i.tag] == i
  {
    hide ImageOk, Listing;
  }

  /** What marking a digest visits: the image in front of it and what that one's aliases find by tag. */
  lemma ReachedAre(c: RSPImageCollection, digest: string, reg: Registry)
    requires c.Star(reg)
    ensures TagsOk(c.byTag, c.members)
    ensures forall i | i in c.members :: c.Reached(i, digest) <==>
              digest in c.byDigest && i in {c.byDigest[digest]} + HeldUnder(c.byTag, c.members, c.byDigest[digest].aliases)
    ensures digest in c.byDigest ==> c.byDigest[digest] in c.members
    ensures TagsApart(c.members) ==> forall i | i in c.members :: c.Reached(i, digest) <==> i.digest == digest
  {
    hide *;
    StarParts(c, reg);
    MembersFound(c, reg);
    MembersApart(c, reg);
    IndexTagsOk(c.byTag, c.byType, c.members, c.members);
    forall i | i in c.members
      ensures c.Reached(i, digest) <==>
                digest in c.byDigest && i in {c.byDigest[digest]} + HeldUnder(c.byTag, c.members, c.byDigest[digest].aliases)
      ensures TagsApart(c.members) ==> (c.Reached(i, digest) <==> i.digest == digest)
    {
      ReachedIs(c, i, digest);
      if digest in c.byDigest {
        KnowsItsDigest(c, digest, reg);
        HeldIs(c.byTag, c.members, c.byDigest[digest].aliases, i);
      }
    }
  }

  lemma ReachedIs(c: RSPImageCollection, i: RSPImage, digest: string)
    ensures c.Reached(i, digest) <==>
              i.digest == digest && digest in c.byDigest && (i == c.byDigest[digest] || (i.tag in c.byTag && c.byTag[i.tag] == i))
  {
  }

  lemma HeldIs(byTag: map<string, RSPImage>, members: set<RSPImage>, names: set<string>, i: RSPImage)
    ensures i in HeldUnder(byTag, members, names) <==> i in members && i.tag in names && i.tag in byTag && byTag[i.tag] == i
  {
  }

  /** The image in front of a digest and those that its aliases find are exactly the members with that digest that their tags find, and it. */
  lemma KnowsItsDigest(c: RSPImageCollection, digest: string, reg: Registry)
    requires c.Star(reg) && digest in c.byDigest
    ensures var image := c.byDigest[digest];
            && image in c.members
            && (forall a | a in image.aliases && a in c.byTag :: c.byTag[a].digest == digest)
            && forall i | i in c.members ::
                 c.Reached(i, digest) <==> i == image || (i.tag in image.aliases && c.byTag[i.tag] == i)
  {
    hide Listing;
    var image := c.byDigest[digest];
    SnapshotFields(c.members);
    assert ImageOk(image, reg);
    forall i | i in c.members
      ensures c.Reached(i, digest) <==> i == image || (i.tag in image.aliases && c.byTag[i.tag] == i)
    {
      assert ImageOk(i, reg);
    }
  }

  /** An image that is left out because an alias stands for it: that alias has its digest and is listed. */
  lemma AliasedIsCovered(c: RSPImageCollection, image: RSPImage, reg: Registry)
    requires c.Star(reg) && image in c.members && c.Aliased(image)
    ensures exists alias | alias in c.members ::
              && alias.imageType.Alias? && alias.aliasTarget == Some(image.tag) && alias.digest == image.digest && alias != image
              && c.Listed(alias, true, false)
  {
    hide IndexOk, FrontsStand, AllOk, WellParsed;
    MembersFound(c, reg);
    AllOkTells(c.members, reg);
    var a :| a in image.aliases && a in c.byTag && c.byTag[a].imageType.Alias? && c.byTag[a].aliasTarget == Some(image.tag);
    TargetShares(c.byTag[a], image, reg);
    assert c.Listed(c.byTag[a], true, false);
  }

  lemma AllOkTells(images: set<RSPImage>, reg: Registry)
    requires AllOk(images, reg)
    ensures forall i | i in images :: ImageOk(i, reg)
  {
  }

  /** An image and one that it targets have one digest. */
  lemma TargetShares(alias: RSPImage, image: RSPImage, reg: Registry)
    requires ImageOk(alias, reg) && ImageOk(image, reg) && alias.aliasTarget == Some(image.tag)
    ensures alias.digest == image.digest && alias != image
  {
  }

  /** What the star says: who is in front, whom they know, and that no alias leads to another digest or, unregistered, to the image itself. */
  lemma StarMeans(c: RSPImageCollection, reg: Registry, i: RSPImage, j: RSPImage)
    requires c.Star(reg) && i in c.members && j in c.members
    ensures i.digest in c.byDigest && c.byDigest[i.digest] in c.members && c.byDigest[i.digest].digest == i.digest
    ensures i.tag == c.byDigest[i.digest].tag || i.tag in c.byDigest[i.digest].aliases
    ensures j.tag in i.aliases ==> j.digest == i.digest && (j == i ==> i in reg.own)
    ensures i.aliasTarget == Some(j.tag) ==> j.digest == i.digest
    ensures !i.IsPossibleAlias() ==> !c.byDigest[i.digest].IsPossibleAlias()
    ensures var front := c.byDigest[i.digest];
            && front.tag in c.byTag && (c.byTag[front.tag] == front || front in reg.own)
            && (TagsApart(c.members) && i != front ==> i.tag in front.aliases)
  {
    hide Listing;
    OwnDigest(c.byDigest[i.digest], reg);
    SnapshotFields(c.members);
    assert ImageOk(i, reg) && ImageOk(j, reg);
  }

  lemma StarParts(c: RSPImageCollection, reg: Registry)
    requires c.Star(reg)
    ensures IndexOk(c.byTag, c.byType, c.members) && AllOk(c.members, reg)
    ensures FrontsAt(Snapshot(c.members), c.byDigest, c.unresolved.Keys) && FoundAt(Snapshot(c.members), c.byTag, c.byDigest)
  {
    hide IndexOk, FrontsAt, FoundAt, AllOk;
  }

  /** A collection keeps its star whatever is done to its images through other collections. */
  lemma StarKept(c: RSPImageCollection, before: map<RSPImage, Saved>, was: map<RSPImage, Saved>, reg: Registry)
    requires FrontsAt(was, c.byDigest, c.unresolved.Keys) && FoundAt(was, c.byTag, c.byDigest) && IndexOk(c.byTag, c.byType, c.members)
    requires was.Keys == c.members <= before.Keys && forall i | i in was :: was[i] == before[i]
    requires AllOk(before.Keys, reg) && OnlyGrown(before)
    ensures c.Star(reg)
  {
    hide ImageOk, FrontsAt, FoundAt, IndexOk;
    StillStands(was, c.byDigest, c.unresolved.Keys, Snapshot(c.members));
  }

  /** What the counts pick are members, none of them twice if none is listed twice. */
  lemma PickedAre(c: RSPImageCollection, releases: nat, weeklies: nat, dailies: nat, removeArch: bool)
    requires IndexOk(c.byTag, c.byType, c.members)
    ensures var picked := c.Picked(releases, weeklies, dailies, removeArch);
            (ListedOnce(c.byType) && TagsApart(c.members) ==> DistinctTags(picked)) && SetOf(picked) <= c.members
  {
    FirstAreIn(c, Release, releases, removeArch);
    FirstAreIn(c, Weekly, weeklies, removeArch);
    FirstAreIn(c, Daily, dailies, removeArch);
    if ListedOnce(c.byType) && TagsApart(c.members) {
      PickedOnce(c, releases, weeklies, dailies, removeArch);
    }
  }

  lemma FirstAreIn(c: RSPImageCollection, t: ImageType, total: nat, removeArch: bool)
    requires IndexOk(c.byTag, c.byType, c.members)
    ensures SetOf(FirstOf(ListOf(c.byType, t), total, removeArch)) <= c.members
  {
    hide Among, Listing, ListOf;
    var images := ListOf(c.byType, t);
    ListedIn(c.byType, t);
    AmongSet(images, Shown(SetOf(images), removeArch));
    forall i | i in SetOf(FirstOf(images, total, removeArch)) ensures i in c.members {
      assert i in SetOf(Visible(images, removeArch));
      assert i in images;
    }
  }

  lemma PickedOnce(c: RSPImageCollection, releases: nat, weeklies: nat, dailies: nat, removeArch: bool)
    requires IndexOk(c.byTag, c.byType, c.members) && ListedOnce(c.byType) && TagsApart(c.members)
    ensures DistinctTags(c.Picked(releases, weeklies, dailies, removeArch))
  {
    hide DistinctTags, SetOf, Among, IndexOk, Listing;
    var a, b, d := ListOf(c.byType, Release), ListOf(c.byType, Weekly), ListOf(c.byType, Daily);
    IndexLists(c.byTag, c.byType, c.members);
    ThreeLists(c.byType, a, b, d);
    Apart(a, b + d);
    Apart(b, d);
    FirstAre(a, releases, removeArch);
    FirstAre(b, weeklies, removeArch);
    FirstAre(d, dailies, removeArch);
    var b', d' := FirstOf(b, weeklies, removeArch), FirstOf(d, dailies, removeArch);
    JoinLists(b', d');
    JoinLists(FirstOf(a, releases, removeArch), b' + d');
    assert c.Picked(releases, weeklies, dailies, removeArch) == FirstOf(a, releases, removeArch) + (b' + d');
  }

  lemma NotOwnNoClash(byTag: map<string, RSPImage>, image: RSPImage, alias: RSPImage, universe: set<RSPImage>, reg: Registry)
    requires AllOk(universe, reg) && alias in universe
    ensures alias !in reg.own ==> !Clash(byTag, image, alias)
  {
    OwnDigest(alias, reg);
  }

  lemma NotTidy(c: RSPImageCollection, alias: RSPImage)
    requires alias in c.members && alias.IsPossibleAlias() && alias.aliasTarget.None?
    ensures !c.Tidy(alias.digest)
  {
  }

  /** What targeted the image in front of a new image's digest targets the new image. */
  function Redirected(target: Option<string>, byDigest: map<string, RSPImage>, image: RSPImage): Option<string> {
    if image.digest in byDigest && target == Some(byDigest[image.digest].tag) then Some(image.tag) else target
  }

  lemma NobodyPlain(c: RSPImageCollection, image: RSPImage, universe: set<RSPImage>, reg: Registry)
    requires c.Star(reg) && c.members + {image} <= universe && AllOk(universe, reg)
    requires image.digest in c.unresolved && !image.IsPossibleAlias()
    ensures forall i | i in c.members && i.digest == image.digest :: i !in PlainAmong(c.members) && i.tag != image.tag
    ensures forall i | i in c.members && i.tag == image.tag :: i.digest == image.digest
  {
    hide ImageOk, Listing, AllOk;
    SnapshotFields(c.members);
    forall i | i in c.members && i.tag == image.tag ensures i.digest == image.digest && !i.IsPossibleAlias() {
      SameKind(i, image, universe, reg);
    }
  }

  lemma LastIsFound(byTag: map<string, RSPImage>, images: seq<RSPImage>, image: RSPImage)
    requires IndexesTags(byTag, images) && images != [] && images[|images| - 1] == image
    ensures image.tag in byTag && byTag[image.tag] == image
  {
    assert IsLast(images, |images| - 1);
  }

  lemma GenericAre(c: RSPImageCollection)
    ensures c.GenericMembers() <= c.members
  {
  }

  /** The list from which `add` builds a collection again. */
  lemma AwaitedListed(c: RSPImageCollection, image: RSPImage, universe: set<RSPImage>, reg: Registry)
    requires c.Star(reg) && c.members + {image} <= universe && !image.IsPossibleAlias()
    requires forall i | i in c.members :: i.tag != image.tag
    ensures var all := Visible(Everything(c.byType), true) + [image];
            && all == c.Rebuilt(image) && SetOf(all) == c.GenericMembers() + {image} && image in all
            && OfCycle(all, None) == all && (ListedOnce(c.byType) && TagsApart(c.members) ==> DistinctTags(all))
    ensures image in PlainAmong(universe) && forall i | i in c.members && i in PlainAmong(universe) :: i in PlainAmong(c.members)
  {
    hide DistinctTags, OfCycle, ListedOnce, Among, Listing, FrontsAt, FoundAt, ImageOk, TagsApart, AllOk;
    var members, all := Everything(c.byType), Visible(Everything(c.byType), true) + [image];
    IndexLists(c.byTag, c.byType, c.members);
    AmongSet(members, Shown(SetOf(members), true));
    Appended(Visible(members, true), image);
    if ListedOnce(c.byType) && TagsApart(c.members) {
      AmongAre(members, Shown(SetOf(members), true));
    }
    OfAnyCycle(all);
  }

  lemma AwaitedInFront(c: RSPImageCollection, all: seq<RSPImage>, image: RSPImage, members: set<RSPImage>,
                       before: map<RSPImage, Saved>, reg: Registry)
    requires image in PlainBefore(before) && image in all
    requires SetOf(all) <= members + {image} <= before.Keys && c.members == SetOf(all)
    requires forall i | i in members && i.digest == image.digest :: i !in PlainBefore(before)
    ensures Settled(all, before, c.byDigest, c.unresolved.Keys, reg) ==>
              && image.digest in c.byDigest && c.byDigest[image.digest] == image && c.Tidy(image.digest)
              && forall i | i in c.members && i.digest == image.digest && i != image :: KnowsOf(i, image.tag)
  {
    hide ImageOk, AllOk, TypesResolved, FrontsStand, Resolved;
    if Settled(all, before, c.byDigest, c.unresolved.Keys, reg) {
      var plain := PlainBefore(before);
      assert image in plain && AliasesResolved(all, plain, c.byDigest);
      var front := c.byDigest[image.digest];
      assert IsFirst(all, |all|, plain, image.digest, front);
      assert front in SetOf(all);
      forall i | i in c.members && i.digest == image.digest && i.IsPossibleAlias() ensures i.aliasTarget == Some(image.tag) {
        assert i in all && i !in plain;
      }
    }
  }
}
