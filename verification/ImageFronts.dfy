/** Which image stands in front of each digest, and how resolving aliases moves them. */
module ImageFronts {
  import opened Wrappers
  import opened TagOrder
  import opened Images
  import opened ImageLists

  ghost predicate TagsOk(byTag: map<string, RSPImage>, universe: set<RSPImage>) {
    && byTag.Values <= universe
    && forall t | t in byTag :: byTag[t].tag == t
  }

  /** Every list by type holds images of that type. */
  ghost predicate TypesFit(byType: map<ImageType, seq<RSPImage>>)
    reads set t, i | t in byType && i in byType[t] :: i
  {
    forall t | t in byType :: forall i | i in byType[t] :: i.imageType == t
  }

  /** The images of one cycle, or all of them. */
  ghost function OfCycle(images: seq<RSPImage>, cycle: Option<nat>): seq<RSPImage>
    reads images
  {
    Among(images, set i | i in SetOf(images) && (cycle.None? || i.cycle == cycle))
  }

  /** Images known before are still known by what they were known by, and aliases are still aliases. */
  ghost predicate Grown(was: map<RSPImage, Saved>, now: map<RSPImage, Saved>) {
    forall i | i in was ::
      i in now && was[i].aliases <= now[i].aliases && (MayBeAlias(was[i].imageType) <==> MayBeAlias(now[i].imageType))
  }

  ghost function NamedIn(byTag: map<string, RSPImage>, names: set<string>): set<RSPImage> {
    set n | n in names && n in byTag :: byTag[n]
  }

  function DigestsOf(images: seq<RSPImage>): set<string> {
    set i | i in images :: i.digest
  }

  /** Who is in front: a digest has an image in front iff some image has that digest, and the one in front knows the others. */
  ghost predicate FrontsAt(now: map<RSPImage, Saved>, byDigest: map<string, RSPImage>, waiting: set<string>) {
    && (forall d | d in byDigest :: byDigest[d] in now && byDigest[d].digest == d)
    && (forall i | i in now ::
          i.digest in byDigest && (i.tag == byDigest[i.digest].tag || i.tag in now[byDigest[i.digest]].aliases))
    && (forall i | i in now && !MayBeAlias(now[i].imageType) :: !MayBeAlias(now[byDigest[i.digest]].imageType))
    && (forall i | i in now && i != byDigest[i.digest] && MayBeAlias(now[byDigest[i.digest]].imageType) :: i.digest in waiting)
    && (forall d | d in waiting :: d in byDigest && MayBeAlias(now[byDigest[d]].imageType))
  }

  /** Whoever is in front of a digest is found by its tag, or is its own alias if another image is. */
  ghost predicate FoundAt(now: map<RSPImage, Saved>, byTag: map<string, RSPImage>, byDigest: map<string, RSPImage>) {
    forall d | d in byDigest ::
      var f := byDigest[d];
      f in now && f.tag in byTag && (byTag[f.tag] == f || f.tag in now[f].aliases)
  }

  ghost predicate FrontsStand(members: set<RSPImage>, byDigest: map<string, RSPImage>, waiting: set<string>)
    reads members`imageType, members`cycle, members`architecture, members`date, members`aliases, members`aliasTarget
  {
    FrontsAt(Snapshot(members), byDigest, waiting)
  }

  /**
   The first image of a digest that is no alias is in front, and every possible alias of
   that digest targets it.
   */
  ghost predicate AliasesResolved(images: seq<RSPImage>, plain: set<RSPImage>, byDigest: map<string, RSPImage>)
    reads SetOf(images)
  {
    forall i | i in images && i in plain ::
      && i.digest in byDigest
      && IsFirst(images, |images|, plain, i.digest, byDigest[i.digest])
      && forall j | j in images && j !in plain && j.digest == i.digest ::
           j.imageType.Alias? && j.aliasTarget == Some(byDigest[i.digest].tag)
  }

  /** Some image of the list that is no alias has this digest. */
  ghost predicate Matched(digest: string, images: seq<RSPImage>, plain: set<RSPImage>) {
    exists m :: 0 <= m < |images| && images[m] in plain && images[m].digest == digest
  }

  /** The images as they were at some time. */
  ghost function Snapshot(universe: set<RSPImage>): map<RSPImage, Saved>
    reads universe`imageType, universe`cycle, universe`architecture, universe`date, universe`aliases, universe`aliasTarget
  {
    map i | i in universe :: i.State()
  }

  ghost function PlainBefore(before: map<RSPImage, Saved>): set<RSPImage> {
    set i | i in before && !MayBeAlias(before[i].imageType)
  }

  /** Exactly the possible aliases of a digest that some other image has become aliases; no other type changes. */
  ghost predicate TypesResolved(images: seq<RSPImage>, plain: set<RSPImage>, before: map<RSPImage, Saved>)
    reads before.Keys
  {
    forall i | i in before ::
      i.imageType == if i in SetOf(images) - plain && Matched(i.digest, images, plain) then Alias else before[i].imageType
  }

  /** What every operation on shared images leaves alone, so that no other collection is disturbed. */
  ghost predicate OnlyGrown(before: map<RSPImage, Saved>)
    reads before.Keys
  {
    && (forall i | i in before ::
          && before[i].aliases <= i.aliases
          && i.IsPossibleAlias() == MayBeAlias(before[i].imageType)
          && (MayBeAlias(before[i].imageType) || i.imageType == before[i].imageType)
          && (before[i].aliasTarget.Some? ==> i.aliasTarget.Some?))
    && (GenericBefore(before) ==> NoArchitectures(before.Keys))
  }

  ghost predicate GenericBefore(before: map<RSPImage, Saved>) {
    forall i | i in before :: before[i].architecture.GetOr("") == ""
  }

  lemma StillGeneric(before: map<RSPImage, Saved>)
    requires OnlyGrown(before)
    ensures GenericBefore(before) ==> NoArchitectures(before.Keys)
  {
  }

  /** The same between two snapshots. */
  ghost predicate GrownBy(before: map<RSPImage, Saved>, now: map<RSPImage, Saved>) {
    && now.Keys == before.Keys
    && (forall i | i in before ::
          && before[i].aliases <= now[i].aliases
          && MayBeAlias(now[i].imageType) == MayBeAlias(before[i].imageType)
          && (MayBeAlias(before[i].imageType) || now[i].imageType == before[i].imageType)
          && (before[i].aliasTarget.Some? ==> now[i].aliasTarget.Some?))
    && (GenericBefore(before) ==> GenericBefore(now))
  }

  lemma GrownAre(before: map<RSPImage, Saved>, universe: set<RSPImage>)
    requires before.Keys == universe
    ensures OnlyGrown(before) <==> GrownBy(before, Snapshot(universe))
    ensures before == Snapshot(universe) ==> OnlyGrown(before)
  {
    SnapshotPlain(universe);
  }

  lemma GrownMore(before: map<RSPImage, Saved>, was: map<RSPImage, Saved>, now: map<RSPImage, Saved>)
    requires GrownBy(before, was) && GrownBy(was, now)
    ensures GrownBy(before, now)
  {
    hide MayBeAlias, GenericBefore;
  }

  /** Two places of a list have this tag: two images, or the same one twice. */
  ghost predicate TagTwice(images: seq<RSPImage>, tag: string) {
    exists a, b | 0 <= a < b < |images| :: images[a].tag == tag && images[b].tag == tag
  }

  /** The images that have the tag of the one in front of their digest, if a list has that tag more than once. */
  ghost function TwiceInFront(images: seq<RSPImage>, byDigest: map<string, RSPImage>): (twice: set<RSPImage>)
    ensures twice <= SetOf(images)
  {
    set i | i in SetOf(images) && i.digest in byDigest && byDigest[i.digest].tag == i.tag && TagTwice(images, i.tag)
  }

  /** Images with one tag have one digest, and either all of them may be aliases or none. */
  ghost predicate TagsAlike(images: set<RSPImage>, plain: set<RSPImage>) {
    forall i, j | i in images && j in images && i.tag == j.tag :: i.digest == j.digest && (i in plain <==> j in plain)
  }

  lemma AllAlike(images: set<RSPImage>, universe: set<RSPImage>, reg: Registry)
    requires AllOk(universe, reg) && images <= universe
    ensures TagsAlike(images, PlainAmong(universe))
  {
    forall i | i in universe ensures reg.digestOf(i.tag) == i.digest && (reg.namesAlias(i.tag) <==> i.IsPossibleAlias()) {
      assert ImageOk(i, reg);
    }
  }

  /** What is registered once a list is in order: such images become their own aliases. */
  ghost function Resolved(reg: Registry, images: seq<RSPImage>, byDigest: map<string, RSPImage>): Registry {
    reg.(own := reg.own + TwiceInFront(images, byDigest))
  }

  /** No image that is its own alias shares its digest with another. */
  ghost predicate Lone(images: set<RSPImage>, reg: Registry) {
    forall i, j | i in images && j in images && i in reg.own && i.digest == j.digest :: i == j
  }

  /** What is registered once one image took over the aliases of another, of itself, or of one with its own tag. */
  function Selfed(reg: Registry, added: RSPImage, outranked: RSPImage): Registry {
    if added.tag == outranked.tag then reg.With(added).With(outranked) else reg
  }

  /**
   What putting a list of images in order leaves behind: every digest has an image in front,
   aliases are resolved, and images that share their digest with no other are as they were.
   */
  ghost predicate Settled(images: seq<RSPImage>, before: map<RSPImage, Saved>, byDigest: map<string, RSPImage>,
                          waiting: set<string>, reg: Registry)
    reads before.Keys, SetOf(images)
  {
    && AllOk(before.Keys, Resolved(reg, images, byDigest)) && OnlyGrown(before)
    && FrontsStand(SetOf(images), byDigest, waiting)
    && AliasesResolved(images, PlainBefore(before), byDigest)
    && TypesResolved(images, PlainBefore(before), before)
    && (forall i | i in before && !SharesDigest(images, i.digest) :: i.State() == before[i])
  }

  /** The images that are no aliases. */
  ghost function PlainAmong(images: set<RSPImage>): set<RSPImage>
    reads images
  {
    set i | i in images && !i.IsPossibleAlias()
  }

  /** Two different images of a list share this digest. */
  ghost predicate SharesDigest(images: seq<RSPImage>, digest: string) {
    exists a, b | 0 <= a < b < |images| :: images[a].digest == digest && images[b].digest == digest
  }

  /** The first image of a list, up to `n`, with this digest that is no alias. */
  ghost predicate IsFirst(images: seq<RSPImage>, n: nat, plain: set<RSPImage>, digest: string, image: RSPImage)
    requires n <= |images|
  {
    exists f | 0 <= f < n ::
      && images[f] == image && image.digest == digest && image in plain
      && forall m | 0 <= m < f && images[m].digest == digest :: images[m] !in plain
  }

  /** What the image in front of each digest is known to be called. */
  ghost function Known(byDigest: map<string, RSPImage>): map<string, set<string>>
    reads byDigest.Values
  {
    map d | d in byDigest :: byDigest[d].aliases
  }

  /** Every image that is no alias is in front for its digest or known to the one in front. */
  ghost predicate Covered(images: seq<RSPImage>, n: nat, plain: set<RSPImage>,
                          byDigest: map<string, RSPImage>, known: map<string, set<string>>)
    requires n <= |images| && known.Keys == byDigest.Keys
  {
    forall m | 0 <= m < n && images[m] in plain ::
      && images[m].digest in byDigest
      && (images[m] == byDigest[images[m].digest] || images[m].tag in known[images[m].digest])
  }

  /** Who is in front after one more image, if a digest already in front keeps its place. */
  ghost predicate PlacedNext(image: RSPImage, plain: set<RSPImage>, before: map<string, RSPImage>, after: map<string, RSPImage>) {
    if image in plain && image.digest !in before then after == before[image.digest := image] else after == before
  }

  /** Who the first pass leaves in front: images of the list that are no aliases. */
  ghost predicate FrontsOk(byDigest: map<string, RSPImage>, images: seq<RSPImage>, plain: set<RSPImage>) {
    forall d | d in byDigest :: byDigest[d] in images && byDigest[d] in plain && byDigest[d].digest == d
  }

  /** Who is no alias, as a set fixed in advance. */
  ghost predicate IsPlain(plain: set<RSPImage>, universe: set<RSPImage>)
    reads universe
  {
    forall i | i in universe :: i in plain <==> !i.IsPossibleAlias()
  }

  /**
   Where the pending images that are `done` have gone. The fronts of the first pass keep
   their place; other digests are waiting, with a pending image in front.
   */
  ghost predicate PlacesOk(byDigest: map<string, RSPImage>, unresolved: map<string, seq<RSPImage>>,
                           fronts: map<string, RSPImage>, done: set<RSPImage>,
                           images: seq<RSPImage>, known: map<string, set<string>>)
  {
    && known.Keys == byDigest.Keys
    && (forall d | d in fronts :: d in byDigest && byDigest[d] == fronts[d])
    && (forall d | d in byDigest :: byDigest[d].digest == d && byDigest[d] in images)
    && (forall d | d in byDigest && d !in fronts :: byDigest[d] in done)
    && unresolved.Keys == byDigest.Keys - fronts.Keys
    && (forall i | i in done :: i.digest in byDigest && (i == byDigest[i.digest] || i.tag in known[i.digest]))
  }

  lemma AliasDigest(i: RSPImage, alias: string, reg: Registry)
    requires ImageOk(i, reg) && alias in i.aliases
    ensures reg.digestOf(alias) == i.digest && (alias == i.tag ==> i in reg.own) && reg.digestOf(i.tag) == i.digest
  {
  }

  /** The images that a collection has under some names. */
  ghost function HeldUnder(byTag: map<string, RSPImage>, universe: set<RSPImage>, names: set<string>): (held: set<RSPImage>)
    ensures held <= universe
  {
    set i | i in universe && i.tag in names && i.tag in byTag && byTag[i.tag] == i
  }

  lemma NobodyHeld(byTag: map<string, RSPImage>, universe: set<RSPImage>)
    ensures HeldUnder(byTag, universe, {}) == {}
  {
  }

  lemma NextHeld(byTag: map<string, RSPImage>, universe: set<RSPImage>, names: set<string>, name: string)
    requires TagsOk(byTag, universe)
    ensures HeldUnder(byTag, universe, names + {name}) == HeldUnder(byTag, universe, names) + if name in byTag then {byTag[name]} else {}
  {
  }

  /** What every image is known to be called besides its tag. */
  ghost function Names(universe: set<RSPImage>): map<RSPImage, set<string>>
    reads universe`aliases
  {
    map i | i in universe :: i.aliases
  }

  /** The same after some images have learned a tag. */
  ghost function Told(names: map<RSPImage, set<string>>, told: set<RSPImage>, tag: string): map<RSPImage, set<string>> {
    map i | i in names :: if i in told then names[i] + {tag} else names[i]
  }

  lemma ToldMore(names: map<RSPImage, set<string>>, told: set<RSPImage>, more: set<RSPImage>, tag: string)
    ensures Told(names, {}, tag) == names && Told(Told(names, told, tag), more, tag) == Told(names, told + more, tag)
  {
  }

  lemma NamesAre(universe: set<RSPImage>, before: map<RSPImage, set<string>>, told: set<RSPImage>, tag: string)
    requires before.Keys == universe && Names(universe) == Told(before, told, tag)
    ensures forall i | i in universe :: i.aliases == before[i] + if i in told then {tag} else {}
  {
    forall i | i in universe ensures i.aliases == before[i] + if i in told then {tag} else {} {
      assert Names(universe)[i] == i.aliases;
    }
  }

  /**
   The loop of `_resolve_duplicate` for a possible alias: everything known under an alias of
   `rep` learns the new tag, and nothing else changes.
   */
  method SpreadAlias(byTag: map<string, RSPImage>, rep: RSPImage, added: RSPImage,
                     ghost universe: set<RSPImage>, ghost reg: Registry)
    returns (r: Result<(), ImageError>)
    requires TagsOk(byTag, universe) && rep in universe && added in universe
    requires AllOk(universe, reg) && rep.digest == added.digest && added.tag in rep.aliases
    modifies universe`aliases
    ensures r.Ok? && AllOk(universe, reg)
    ensures forall i | i in universe ::
              i.aliases == old(i.aliases) + if i in HeldUnder(byTag, universe, old(rep.aliases) - {added.tag}) then {added.tag} else {}
    ensures forall i | i in universe && i.digest != rep.digest :: i.aliases == old(i.aliases)
  {
    HeldShare(byTag, rep, universe, rep.aliases - {added.tag}, reg);
    r := SpreadNames(byTag, rep, added.tag, universe, reg);
    NamesAre(universe, old(Names(universe)), HeldUnder(byTag, universe, old(rep.aliases) - {added.tag}), added.tag);
  }

  method SpreadNames(byTag: map<string, RSPImage>, rep: RSPImage, added: string,
                     ghost universe: set<RSPImage>, ghost reg: Registry)
    returns (r: Result<(), ImageError>)
    requires TagsOk(byTag, universe) && rep in universe && AllOk(universe, reg) && added in rep.aliases
    modifies universe`aliases
    ensures r.Ok? && AllOk(universe, reg)
    ensures Names(universe) == Told(old(Names(universe)), HeldUnder(byTag, universe, old(rep.aliases) - {added}), added)
  {
    hide ImageOk, AllOk, HeldUnder, TagsOk, Names, Told;
    ghost var known, before := rep.aliases, Names(universe);
    ghost var names: set<string>, told: set<RSPImage> := {}, {};
    NobodyHeld(byTag, universe);
    ToldMore(before, {}, {}, added);
    var todo, size := rep.aliases, |rep.aliases|;
    while todo != {}
      invariant todo <= rep.aliases == known && names == known - todo - {added}
      invariant AllOk(universe, reg) && told == HeldUnder(byTag, universe, names)
      invariant Names(universe) == Told(before, told, added)
      decreases todo
    {
      if |rep.aliases| != size {
        return Err(SetChangedDuringIteration);
      }
      var alias :| alias in todo;
      todo := todo - {alias};
      if alias != added {
        NextHeld(byTag, universe, names, alias);
        ToldMore(before, told, if alias in byTag then {byTag[alias]} else {}, added);
        TellOne(byTag, rep, alias, added, universe, reg);
        names, told := names + {alias}, told + if alias in byTag then {byTag[alias]} else {};
      }
    }
    assert names == known - {added};
    r := if |rep.aliases| != size then Err(SetChangedDuringIteration) else Ok(());
  }

  /** One turn of that loop. */
  method TellOne(byTag: map<string, RSPImage>, rep: RSPImage, alias: string, added: string,
                 ghost universe: set<RSPImage>, ghost reg: Registry)
    requires TagsOk(byTag, universe) && AllOk(universe, reg) && rep in universe
    requires alias in rep.aliases && added in rep.aliases && alias != added
    modifies universe`aliases
    ensures AllOk(universe, reg) && rep.aliases == old(rep.aliases)
    ensures Names(universe) == Told(old(Names(universe)), if alias in byTag then {byTag[alias]} else {}, added)
  {
    hide ImageOk, AllOk, TagsOk;
    AliasHeld(byTag, rep, alias, universe, reg);
    AliasHeld(byTag, rep, added, universe, reg);
    if alias in byTag {
      AddAlias(byTag[alias], added, universe, reg);
    }
  }

  lemma HeldShare(byTag: map<string, RSPImage>, rep: RSPImage, universe: set<RSPImage>, names: set<string>, reg: Registry)
    requires TagsOk(byTag, universe) && AllOk(universe, reg) && rep in universe && names <= rep.aliases
    ensures forall i | i in HeldUnder(byTag, universe, names) :: i.digest == rep.digest && i.tag in names
  {
    hide ImageOk, AllOk;
    forall i | i in HeldUnder(byTag, universe, names) ensures i.digest == rep.digest {
      AliasHeld(byTag, rep, i.tag, universe, reg);
    }
  }

  /** The image that a collection has under an alias of another one has the same digest, and is another one unless that is its own alias. */
  lemma AliasHeld(byTag: map<string, RSPImage>, rep: RSPImage, alias: string, universe: set<RSPImage>, reg: Registry)
    requires TagsOk(byTag, universe) && AllOk(universe, reg) && rep in universe && alias in rep.aliases
    ensures reg.digestOf(alias) == rep.digest && (alias == rep.tag ==> rep in reg.own) && reg.digestOf(rep.tag) == rep.digest
    ensures alias in byTag ==>
              var other := byTag[alias];
              && other in universe && other.tag == alias && other.digest == rep.digest
  {
    AliasDigest(rep, alias, reg);
    if alias in byTag {
      OwnDigest(byTag[alias], reg);
    }
  }

  lemma OwnDigest(i: RSPImage, reg: Registry)
    requires ImageOk(i, reg)
    ensures reg.digestOf(i.tag) == i.digest && (i.tag in i.aliases <==> i in reg.own)
  {
  }

  /**
   How images stand once `rep` has taken over some aliases of the image it outranks: it is
   known by them, those that targeted that image target `rep` and know both, and the others
   know `rep`. What the resolved ones learn of each other depends on the order.
   */
  ghost predicate Adopted(before: map<RSPImage, Saved>, now: map<RSPImage, Saved>, rep: RSPImage, outranked: RSPImage, told: set<RSPImage>) {
    && now.Keys == before.Keys && rep in before && rep !in told
    && now[rep] == before[rep].(aliases := before[rep].aliases + set i | i in told :: i.tag)
    && forall i | i in before && i != rep ::
         if i !in told then now[i] == before[i]
         else if before[i].aliasTarget == Some(outranked.tag) then
           && now[i].imageType.Alias? && now[i].aliasTarget == Some(rep.tag)
           && before[i].aliases + {outranked.tag} + (before[rep].aliases - {i.tag}) <= now[i].aliases
           && now[i].aliases <= before[i].aliases + {outranked.tag} + now[rep].aliases
         else now[i] == before[i].(aliases := before[i].aliases + {rep.tag})
  }

  /** One turn of the loop: `other` is known under an alias of the outranked image. */
  method AdoptOne(rep: RSPImage, outranked: RSPImage, other: RSPImage, ghost universe: set<RSPImage>, ghost reg: Registry)
    requires {rep, outranked, other} <= universe && AllOk(universe, reg)
    requires other.tag != rep.tag
    requires rep.digest == outranked.digest == other.digest
    modifies rep`aliases, other`aliases, other`imageType, other`aliasTarget, other`cycle, other`architecture, other`date
    ensures AllOk(universe, reg) && rep.aliases == old(rep.aliases) + {other.tag}
    ensures old(other.aliasTarget) == Some(outranked.tag) ==>
              && other.imageType.Alias? && other.aliasTarget == Some(rep.tag)
              && other.aliases == old(other.aliases) + (old(rep.aliases) - {other.tag}) + {outranked.tag}
    ensures old(other.aliasTarget) != Some(outranked.tag) ==>
              other.State() == old(other.State()).(aliases := old(other.aliases) + {rep.tag})
    ensures other.architecture == old(other.architecture) || other.architecture == rep.architecture
  {
    hide ImageOk, AllOk;
    AllOwn(universe, reg);
    TargetsAreAliases(universe, reg);
    AddAlias(rep, other.tag, universe, reg);
    if other.aliasTarget == Some(outranked.tag) {
      ResolveOne(other, rep, universe, reg);
      AddAlias(other, outranked.tag, universe, reg);
    } else {
      AddAlias(other, rep.tag, universe, reg);
    }
  }

  lemma AllOwn(universe: set<RSPImage>, reg: Registry)
    requires AllOk(universe, reg)
    ensures forall i | i in universe :: reg.digestOf(i.tag) == i.digest
  {
    forall i | i in universe ensures reg.digestOf(i.tag) == i.digest {
      OwnDigest(i, reg);
    }
  }

  lemma TargetsAreAliases(universe: set<RSPImage>, reg: Registry)
    requires AllOk(universe, reg)
    ensures forall i | i in universe && i.aliasTarget.Some? :: i.imageType.Alias? && i.aliasTarget.value != i.tag
  {
  }

  lemma NobodyAdopted(before: map<RSPImage, Saved>, rep: RSPImage, outranked: RSPImage)
    requires rep in before
    ensures Adopted(before, before, rep, outranked, {})
  {
  }

  lemma AdoptedMore(before: map<RSPImage, Saved>, was: map<RSPImage, Saved>, now: map<RSPImage, Saved>,
                    rep: RSPImage, outranked: RSPImage, told: set<RSPImage>, other: RSPImage)
    requires Adopted(before, was, rep, outranked, told) && other in before && other !in told && other != rep
    requires now.Keys == was.Keys && forall i | i in was && i != rep && i != other :: now[i] == was[i]
    requires now[rep] == was[rep].(aliases := was[rep].aliases + {other.tag})
    requires was[other].aliasTarget == Some(outranked.tag) ==>
               && now[other].imageType.Alias? && now[other].aliasTarget == Some(rep.tag)
               && now[other].aliases == was[other].aliases + (was[rep].aliases - {other.tag}) + {outranked.tag}
    requires was[other].aliasTarget != Some(outranked.tag) ==> now[other] == was[other].(aliases := was[other].aliases + {rep.tag})
    ensures Adopted(before, now, rep, outranked, told + {other})
  {
    assert (set i | i in told + {other} :: i.tag) == (set i | i in told :: i.tag) + {other.tag};
  }

  /** The names a walk has dealt with. */
  function Done(known: set<string>, todo: set<string>, skipped: string): set<string> {
    known - todo - {skipped}
  }

  lemma NextName(known: set<string>, todo: set<string>, name: string, skipped: string)
    requires name in todo && todo <= known
    ensures Done(known, todo - {name}, skipped) == if name == skipped then Done(known, todo, skipped) else Done(known, todo, skipped) + {name}
    ensures name !in Done(known, todo, skipped)
  {
  }

  lemma AllNames(known: set<string>, skipped: string)
    ensures Done(known, known, skipped) == {} && Done(known, {}, skipped) == known - {skipped}
  {
  }

  /** One alias of the outranked image, which may be `rep` itself. */
  method AdoptNext(byTag: map<string, RSPImage>, rep: RSPImage, outranked: RSPImage, alias: string,
                   ghost before: map<RSPImage, Saved>, ghost names: set<string>, ghost universe: set<RSPImage>, ghost reg: Registry)
    requires TagsOk(byTag, universe) && rep in universe && outranked in universe
    requires AllOk(universe, reg) && rep.digest == outranked.digest
    requires alias in outranked.aliases && alias != rep.tag && alias !in names
    requires Adopted(before, Snapshot(universe), rep, outranked, HeldUnder(byTag, universe, names))
    modifies universe`aliases, universe`imageType, universe`aliasTarget, universe`cycle, universe`architecture, universe`date
    ensures AllOk(universe, reg)
    ensures outranked.aliases == old(outranked.aliases) + if alias in byTag && byTag[alias] == outranked then {rep.tag} else {}
    ensures Adopted(before, Snapshot(universe), rep, outranked, HeldUnder(byTag, universe, names + {alias}))
    ensures old(NoArchitectures(universe)) ==> NoArchitectures(universe)
  {
    hide ImageOk, AllOk, HeldUnder, TagsOk, Adopted;
    NextHeld(byTag, universe, names, alias);
    if alias in byTag {
      var other := byTag[alias];
      ghost var was := Snapshot(universe);
      AliasHeld(byTag, outranked, alias, universe, reg);
      NotBefore(byTag, universe, names, alias);
      AdoptedHas(before, was, rep, outranked, HeldUnder(byTag, universe, names));
      TargetsAreAliases(universe, reg);
      AdoptOne(rep, outranked, other, universe, reg);
      AdoptedMore(before, was, Snapshot(universe), rep, outranked, HeldUnder(byTag, universe, names), other);
    } else {
      assert HeldUnder(byTag, universe, names + {alias}) == HeldUnder(byTag, universe, names);
    }
  }

  lemma AdoptedHas(before: map<RSPImage, Saved>, now: map<RSPImage, Saved>, rep: RSPImage, outranked: RSPImage, told: set<RSPImage>)
    requires Adopted(before, now, rep, outranked, told)
    ensures now.Keys == before.Keys
  {
  }

  /** The set that is walked, once the walk has added a name to it or not. */
  function Walked(known: set<string>, grown: bool, name: string): set<string> {
    if grown then known + {name} else known
  }

  lemma WalkedSize(known: set<string>, grown: bool, name: string)
    ensures grown && name !in known ==> |Walked(known, grown, name)| == |known| + 1
    ensures !grown ==> Walked(known, grown, name) == known
  {
  }

  /** A turn of the walk. */
  lemma WalkedNext(known: set<string>, clash: bool, own: bool, held: bool, name: string)
    requires clash && own ==> held
    requires !clash && own && held ==> name in known
    ensures known + (if own && held then {name} else {}) == Walked(known, clash && own, name)
  {
  }

  /** `rep` takes over the aliases of an image that is its own alias, found by its tag, and does not know `rep` yet. */
  ghost predicate Clash(byTag: map<string, RSPImage>, rep: RSPImage, outranked: RSPImage)
    reads outranked`aliases
  {
    && rep.tag != outranked.tag && outranked.tag in outranked.aliases && rep.tag !in outranked.aliases
    && outranked.tag in byTag && byTag[outranked.tag] == outranked
  }

  /**
   The loop of `_resolve_duplicate` for two images that are not aliases: `rep` takes over
   the aliases of the image it outranks, which may be `rep` itself. It fails exactly if the
   outranked image is its own alias and has yet to learn of `rep`: then the set that is
   walked grows.
   */
  method AdoptAliases(byTag: map<string, RSPImage>, rep: RSPImage, outranked: RSPImage,
                      ghost universe: set<RSPImage>, ghost reg: Registry)
    returns (r: Result<(), ImageError>, ghost told: set<RSPImage>)
    requires TagsOk(byTag, universe) && rep in universe && outranked in universe
    requires AllOk(universe, reg) && rep.digest == outranked.digest
    modifies universe`aliases, universe`imageType, universe`aliasTarget, universe`cycle, universe`architecture, universe`date
    ensures r == (if old(Clash(byTag, rep, outranked)) then Err(SetChangedDuringIteration) else Ok(()))
    ensures AllOk(universe, reg)
    ensures Adopted(old(Snapshot(universe)), Snapshot(universe), rep, outranked, told)
    ensures told <= HeldUnder(byTag, universe, old(outranked.aliases) - {rep.tag})
    ensures r.Ok? ==> told == HeldUnder(byTag, universe, old(outranked.aliases) - {rep.tag})
    ensures old(NoArchitectures(universe)) ==> NoArchitectures(universe)
  {
    hide *;
    SnapshotPlain(universe);
    ghost var known, before, clash := outranked.aliases, Snapshot(universe), Clash(byTag, rep, outranked);
    AllNames(known, rep.tag);
    OwnTag(byTag, rep, outranked, universe);
    NobodyHeld(byTag, universe);
    NobodyAdopted(before, rep, outranked);
    var todo, size := outranked.aliases, |outranked.aliases|;
    ghost var grown := false;
    WalkedSize(known, grown, rep.tag);
    while todo != {}
      invariant todo <= known
      invariant outranked.aliases == Walked(known, grown, rep.tag) && (grown <==> clash && outranked.tag !in todo)
      invariant old(NoArchitectures(universe)) ==> NoArchitectures(universe)
      invariant AllOk(universe, reg) && Adopted(before, Snapshot(universe), rep, outranked, HeldUnder(byTag, universe, Done(known, todo, rep.tag)))
      decreases todo
    {
      WalkedSize(known, grown, rep.tag);
      if |outranked.aliases| != size {
        FewerHeld(byTag, universe, known, todo, rep.tag);
        return Err(SetChangedDuringIteration), HeldUnder(byTag, universe, Done(known, todo, rep.tag));
      }
      assert !grown;
      var alias :| alias in todo;
      NextName(known, todo, alias, rep.tag);
      ghost var names := Done(known, todo, rep.tag);
      todo := todo - {alias};
      if alias != rep.tag {
        grown := clash && alias == outranked.tag;
        WalkedNext(known, clash, alias == outranked.tag, alias in byTag && byTag[alias] == outranked, rep.tag);
        AdoptNext(byTag, rep, outranked, alias, before, names, universe, reg);
      }
    }
    WalkedSize(known, grown, rep.tag);
    r := if |outranked.aliases| != size then Err(SetChangedDuringIteration) else Ok(());
    told := HeldUnder(byTag, universe, Done(known, {}, rep.tag));
  }

  lemma FewerHeld(byTag: map<string, RSPImage>, universe: set<RSPImage>, known: set<string>, todo: set<string>, skipped: string)
    ensures HeldUnder(byTag, universe, Done(known, todo, skipped)) <= HeldUnder(byTag, universe, known - {skipped})
  {
  }

  lemma OwnTag(byTag: map<string, RSPImage>, rep: RSPImage, outranked: RSPImage, universe: set<RSPImage>)
    requires TagsOk(byTag, universe)
    ensures forall a | a in byTag && byTag[a] == outranked :: a == outranked.tag
    ensures Clash(byTag, rep, outranked) ==> outranked.tag in outranked.aliases && rep.tag !in outranked.aliases
    ensures outranked.tag in outranked.aliases && outranked.tag != rep.tag && outranked.tag in byTag && byTag[outranked.tag] == outranked ==>
              (Clash(byTag, rep, outranked) <==> rep.tag !in outranked.aliases)
    ensures Clash(byTag, rep, outranked) ==> outranked.tag in byTag && byTag[outranked.tag] == outranked && rep.tag != outranked.tag
  {
  }

  /** The image has this tag among its aliases or as its target. */
  ghost predicate KnowsOf(i: RSPImage, tag: string)
    reads i`aliases, i`aliasTarget
  {
    tag in i.aliases || i.aliasTarget == Some(tag)
  }

  ghost function TagsOf(images: set<RSPImage>): set<string> {
    set i | i in images :: i.tag
  }

  /** Resolving aliases of one digest adds aliases and moves targets; it changes no type and no other digest. */
  ghost predicate Widened(before: map<RSPImage, Saved>, now: map<RSPImage, Saved>, digest: string) {
    && now.Keys == before.Keys
    && forall i | i in before ::
         && before[i].aliases <= now[i].aliases && now[i].imageType == before[i].imageType
         && now[i].aliasTarget.Some? == before[i].aliasTarget.Some?
         && (i.digest != digest ==> now[i] == before[i])
  }

  lemma WidenedMeans(universe: set<RSPImage>, before: map<RSPImage, Saved>, digest: string)
    requires Widened(before, Snapshot(universe), digest)
    ensures before.Keys == universe
    ensures forall i | i in universe ::
              before[i].aliases <= i.aliases && i.imageType == before[i].imageType && i.aliasTarget.Some? == before[i].aliasTarget.Some?
    ensures forall i | i in universe && i.digest != digest :: i.State() == before[i]
  {
    SnapshotPlain(universe);
  }

  lemma WidenedNot(before: map<RSPImage, Saved>, digest: string)
    ensures Widened(before, before, digest)
  {
  }

  lemma WidenedMore(before: map<RSPImage, Saved>, was: map<RSPImage, Saved>, now: map<RSPImage, Saved>, digest: string)
    requires Widened(before, was, digest) && Widened(was, now, digest)
    ensures Widened(before, now, digest)
  {
  }

  /** One image has learned a name. */
  ghost function Taught(before: map<RSPImage, Saved>, i: RSPImage, name: string): map<RSPImage, Saved>
    requires i in before
  {
    before[i := before[i].(aliases := before[i].aliases + {name})]
  }

  lemma WidenedOne(before: map<RSPImage, Saved>, i: RSPImage, name: string)
    requires i in before
    ensures Widened(before, Taught(before, i, name), i.digest)
  {
  }

  lemma AdoptedWidens(before: map<RSPImage, Saved>, now: map<RSPImage, Saved>, rep: RSPImage, outranked: RSPImage, told: set<RSPImage>)
    requires Adopted(before, now, rep, outranked, told)
    requires forall i | i in before && before[i].aliasTarget.Some? :: before[i].imageType.Alias?
    requires forall i | i in told :: i.digest == rep.digest
    ensures Widened(before, now, rep.digest)
  {
  }

  lemma TargetsBefore(universe: set<RSPImage>, reg: Registry)
    requires AllOk(universe, reg)
    ensures forall i | i in universe :: Snapshot(universe)[i].aliasTarget.Some? ==> Snapshot(universe)[i].imageType.Alias?
    ensures forall i | i in universe :: Snapshot(universe)[i].aliasTarget != Some(i.tag)
    ensures forall i | i in universe :: reg.digestOf(i.tag) == i.digest
  {
    SnapshotPlain(universe);
    AllOwn(universe, reg);
    TargetsAreAliases(universe, reg);
  }

  /** One image learns a name, in terms of everybody. */
  method Learn(other: RSPImage, alias: string, ghost universe: set<RSPImage>, ghost reg: Registry)
    requires other in universe && AllOk(universe, reg) && reg.digestOf(alias) == other.digest
    modifies other`aliases
    ensures other.aliases == old(other.aliases) + {alias}
    ensures AllOk(universe, if alias == other.tag then reg.With(other) else reg)
    ensures other in old(Snapshot(universe))
    ensures Snapshot(universe) == Taught(old(Snapshot(universe)), other, alias)
    ensures old(NoArchitectures(universe)) ==> NoArchitectures(universe)
  {
    hide AllOk;
    AddAlias(other, alias, universe, reg);
  }

  /**
   How images stand once `added` has taken over the aliases of the image it outranks: it is
   known by that image's tag and by those of all that are `held` under its aliases, what of
   them targeted that image targets `added`, and of the others just the `learners` know it.
   */
  ghost predicate Overtaken(before: map<RSPImage, Saved>, now: map<RSPImage, Saved>, added: RSPImage, outranked: RSPImage,
                            held: set<RSPImage>, learners: set<RSPImage>)
  {
    && now.Keys == before.Keys && added in before && added !in held
    && now[added].aliases == before[added].aliases + {outranked.tag} + TagsOf(held)
    && forall i | i in before && i != added ::
         if i in held && before[i].aliasTarget == Some(outranked.tag) then now[i].aliasTarget == Some(added.tag)
         else
           && now[i].aliasTarget == before[i].aliasTarget
           && now[i].aliases == before[i].aliases + if i in learners then {added.tag} else {}
  }

  lemma AdoptedOvertakes(start: map<RSPImage, Saved>, before: map<RSPImage, Saved>, now: map<RSPImage, Saved>,
                         added: RSPImage, outranked: RSPImage, told: set<RSPImage>)
    requires added in start && before == Taught(start, added, outranked.tag)
    requires Adopted(before, now, added, outranked, told)
    ensures Overtaken(start, now, added, outranked, told, told) && now[added].aliasTarget == start[added].aliasTarget
  {
  }

  /** The outranked image learns of the new one, unless they are the same. */
  lemma OutrankedLearns(before: map<RSPImage, Saved>, was: map<RSPImage, Saved>, now: map<RSPImage, Saved>,
                        added: RSPImage, outranked: RSPImage, held: set<RSPImage>)
    requires Overtaken(before, was, added, outranked, held, held) && outranked in was
    requires before[outranked].aliasTarget != Some(outranked.tag)
    requires now == Taught(was, outranked, added.tag)
    ensures Overtaken(before, now, added, outranked, held, held + {outranked})
  {
  }

  /** What a list that the new image's collection keeps by tag sees of it. */
  lemma OvertakenShows(byTag: map<string, RSPImage>, universe: set<RSPImage>, before: map<RSPImage, Saved>,
                       added: RSPImage, outranked: RSPImage, names: set<string>)
    requires TagsOk(byTag, universe) && added in universe && outranked in universe && before.Keys == universe
    requires Overtaken(before, Snapshot(universe), added, outranked, HeldUnder(byTag, universe, names),
                       HeldUnder(byTag, universe, names) + {outranked})
    requires before[outranked].aliasTarget != Some(outranked.tag)
    ensures outranked.tag in added.aliases && (forall a | a in names && a in byTag :: a in added.aliases)
    ensures added != outranked ==> added.tag in outranked.aliases
    ensures forall i | i in HeldUnder(byTag, universe, names) :: KnowsOf(i, added.tag)
    ensures forall i | i in universe && i != added ::
              i.aliasTarget == if i in HeldUnder(byTag, universe, names) && before[i].aliasTarget == Some(outranked.tag)
                               then Some(added.tag) else before[i].aliasTarget
  {
    hide TagsOk;
    var now, held := Snapshot(universe), HeldUnder(byTag, universe, names);
    SnapshotPlain(universe);
    assert forall i | i in universe :: now[i] == i.State();
    forall a | a in names && a in byTag ensures a in added.aliases {
      TagFound(byTag, universe, a);
      assert byTag[a] in held && a in TagsOf(held);
    }
  }

  lemma TagFound(byTag: map<string, RSPImage>, universe: set<RSPImage>, name: string)
    requires TagsOk(byTag, universe) && name in byTag
    ensures byTag[name] in universe && byTag[name].tag == name
  {
  }

  /** All but the last line of the following. */
  method Overtake(byTag: map<string, RSPImage>, added: RSPImage, outranked: RSPImage,
                  ghost universe: set<RSPImage>, ghost reg: Registry)
    returns (r: Result<(), ImageError>)
    requires TagsOk(byTag, universe) && added in universe && outranked in universe && AllOk(universe, reg)
    requires added.digest == outranked.digest
    modifies universe`aliases, universe`imageType, universe`aliasTarget, universe`cycle, universe`architecture, universe`date
    ensures r == (if old(Clash(byTag, added, outranked)) then Err(SetChangedDuringIteration) else Ok(()))
    ensures AllOk(universe, if added.tag == outranked.tag then reg.With(added) else reg)
    ensures Widened(old(Snapshot(universe)), Snapshot(universe), added.digest)
    ensures r.Ok? ==> var held := HeldUnder(byTag, universe, old(outranked.aliases) - {added.tag});
                      Overtaken(old(Snapshot(universe)), Snapshot(universe), added, outranked, held, held)
    ensures old(NoArchitectures(universe)) ==> NoArchitectures(universe)
  {
    hide *;
    SnapshotPlain(universe);
    TargetsBefore(universe, reg);
    ghost var start, names := Snapshot(universe), outranked.aliases - {added.tag};
    HeldShare(byTag, outranked, universe, names, reg);
    ClashParts(byTag, added, outranked);
    WidenedOne(start, added, outranked.tag);
    Learn(added, outranked.tag, universe, reg);
    ghost var before := Snapshot(universe);
    ClashParts(byTag, added, outranked);
    assert names == outranked.aliases - {added.tag};
    ghost var told;
    r, told := AdoptAliases(byTag, added, outranked, universe, if added.tag == outranked.tag then reg.With(added) else reg);
    AdoptedWidens(before, Snapshot(universe), added, outranked, told);
    WidenedMore(start, before, Snapshot(universe), added.digest);
    AdoptedOvertakes(start, before, Snapshot(universe), added, outranked, told);
  }

  lemma ClashParts(byTag: map<string, RSPImage>, added: RSPImage, outranked: RSPImage)
    ensures Clash(byTag, added, outranked) <==>
              && added.tag != outranked.tag && outranked.tag in outranked.aliases && added.tag !in outranked.aliases
              && outranked.tag in byTag && byTag[outranked.tag] == outranked
  {
  }

  /** `_resolve_duplicate` of two images that are no aliases, up to putting the new one in front. */
  method Outrank(byTag: map<string, RSPImage>, added: RSPImage, outranked: RSPImage,
                 ghost universe: set<RSPImage>, ghost reg: Registry)
    returns (r: Result<(), ImageError>)
    requires TagsOk(byTag, universe) && added in universe && outranked in universe && AllOk(universe, reg)
    requires added.digest == outranked.digest
    modifies universe`aliases, universe`imageType, universe`aliasTarget, universe`cycle, universe`architecture, universe`date
    ensures r == (if old(Clash(byTag, added, outranked)) then Err(SetChangedDuringIteration) else Ok(()))
    ensures AllOk(universe, Selfed(reg, added, outranked))
    ensures Widened(old(Snapshot(universe)), Snapshot(universe), added.digest)
    ensures r.Ok? ==> var held := HeldUnder(byTag, universe, old(outranked.aliases) - {added.tag});
                      Overtaken(old(Snapshot(universe)), Snapshot(universe), added, outranked, held, held + {outranked})
    ensures old(NoArchitectures(universe)) ==> NoArchitectures(universe)
  {
    hide *;
    SnapshotPlain(universe);
    TargetsBefore(universe, reg);
    ghost var start, held := Snapshot(universe), HeldUnder(byTag, universe, outranked.aliases - {added.tag});
    ClashParts(byTag, added, outranked);
    SelfedIs(reg, added, outranked);
    r := Overtake(byTag, added, outranked, universe, reg);
    if r.Err? {
      return;
    }
    ghost var was := Snapshot(universe);
    SnapshotPlain(universe);
    WidenedOne(was, outranked, added.tag);
    Learn(outranked, added.tag, universe, if added.tag == outranked.tag then reg.With(added) else reg);
    WidenedMore(start, was, Snapshot(universe), added.digest);
    OutrankedLearns(start, was, Snapshot(universe), added, outranked, held);
  }

  lemma SelfedIs(reg: Registry, added: RSPImage, outranked: RSPImage)
    ensures Selfed(reg, added, outranked) == if added.tag == outranked.tag then reg.With(added).With(outranked) else reg
  {
  }

  lemma FirstsListed(images: seq<RSPImage>, n: nat, plain: set<RSPImage>, byDigest: map<string, RSPImage>)
    requires n <= |images| && forall d | d in byDigest :: IsFirst(images, n, plain, d, byDigest[d])
    ensures forall d | d in byDigest :: byDigest[d] in SetOf(images) && byDigest[d].digest == d && byDigest[d] in plain
  {
    forall d | d in byDigest ensures byDigest[d] in SetOf(images) && byDigest[d].digest == d && byDigest[d] in plain {
      assert IsFirst(images, n, plain, d, byDigest[d]);
    }
  }

  lemma OvertakerKnows(universe: set<RSPImage>, before: map<RSPImage, Saved>, added: RSPImage, outranked: RSPImage, held: set<RSPImage>)
    requires Overtaken(before, Snapshot(universe), added, outranked, held, held + {outranked}) && before.Keys == universe
    ensures outranked.tag in added.aliases
  {
    SnapshotPlain(universe);
  }

  lemma HeldListed(byTag: map<string, RSPImage>, images: seq<RSPImage>, universe: set<RSPImage>, names: set<string>)
    requires IndexesTags(byTag, images) && SetOf(images) <= universe
    ensures HeldUnder(byTag, universe, names) <= SetOf(images)
    ensures forall i | i in SetOf(images) :: i in HeldUnder(byTag, universe, names) <==> Found(images, i) && i.tag in names
  {
    hide IsLast, Found;
    forall i | i in SetOf(images) ensures i in HeldUnder(byTag, universe, names) <==> Found(images, i) && i.tag in names {
      FoundIs(byTag, images, i);
    }
  }

  /** What the first pass may do to everybody. */
  ghost predicate PassWidened(images: seq<RSPImage>, before: map<RSPImage, Saved>, now: map<RSPImage, Saved>) {
    && now.Keys == before.Keys
    && forall i | i in before ::
         && before[i].aliases <= now[i].aliases && now[i].imageType == before[i].imageType
         && now[i].aliasTarget.Some? == before[i].aliasTarget.Some?
         && (!SharesDigest(images, i.digest) ==> now[i] == before[i])
  }

  lemma PassNothing(images: seq<RSPImage>, before: map<RSPImage, Saved>)
    ensures PassWidened(images, before, before)
  {
  }

  lemma PassMore(images: seq<RSPImage>, before: map<RSPImage, Saved>, was: map<RSPImage, Saved>, now: map<RSPImage, Saved>, digest: string)
    requires PassWidened(images, before, was) && Widened(was, now, digest) && SharesDigest(images, digest)
    ensures PassWidened(images, before, now)
  {
  }

  lemma StillPlain(images: seq<RSPImage>, before: map<RSPImage, Saved>, universe: set<RSPImage>)
    requires PassWidened(images, before, Snapshot(universe)) && before.Keys == universe
    ensures forall i | i in universe :: i in PlainBefore(before) <==> !i.IsPossibleAlias()
  {
    SnapshotPlain(universe);
  }

  /** What the second pass does to everybody: what was pending and meets a front of the first pass targets it. */
  ghost predicate Followed(images: seq<RSPImage>, fronts: map<string, RSPImage>, before: map<RSPImage, Saved>,
                           now: map<RSPImage, Saved>, done: set<RSPImage>)
  {
    && now.Keys == before.Keys
    && forall i | i in before ::
         && before[i].aliases <= now[i].aliases && (!SharesDigest(images, i.digest) ==> now[i] == before[i])
         && if i in done && i.digest in fronts then
              now[i].imageType.Alias? && now[i].aliasTarget == Some(fronts[i.digest].tag)
            else now[i].imageType == before[i].imageType && now[i].aliasTarget == before[i].aliasTarget
  }

  lemma FollowedNone(images: seq<RSPImage>, fronts: map<string, RSPImage>, before: map<RSPImage, Saved>)
    ensures Followed(images, fronts, before, before, {})
  {
  }

  lemma FollowedMore(images: seq<RSPImage>, fronts: map<string, RSPImage>, before: map<RSPImage, Saved>, was: map<RSPImage, Saved>,
                     now: map<RSPImage, Saved>, done: set<RSPImage>, image: RSPImage)
    requires Followed(images, fronts, before, was, done) && Followed(images, fronts, was, now, {image})
    ensures Followed(images, fronts, before, now, done + {image})
  {
  }

  /** What a possible alias changes when it meets an image of its digest, which it targets if that one is no alias. */
  ghost predicate Moved(before: map<RSPImage, Saved>, now: map<RSPImage, Saved>, image: RSPImage, target: Option<string>) {
    && now.Keys == before.Keys && image in before
    && (forall i | i in before ::
          && before[i].aliases <= now[i].aliases && (i.digest != image.digest ==> now[i] == before[i])
          && (i != image ==> now[i].imageType == before[i].imageType && now[i].aliasTarget == before[i].aliasTarget))
    && (if target.Some? then now[image].imageType.Alias? && now[image].aliasTarget == target
        else now[image].imageType == before[image].imageType && now[image].aliasTarget == before[image].aliasTarget)
  }

  lemma MovedNot(before: map<RSPImage, Saved>, image: RSPImage)
    requires image in before
    ensures Moved(before, before, image, None)
  {
  }

  lemma MovedTo(universe: set<RSPImage>, before: map<RSPImage, Saved>, image: RSPImage, target: Option<string>)
    requires image in universe && universe == before.Keys
    requires forall i | i in universe ::
               && before[i].aliases <= i.aliases && (i.digest != image.digest ==> i.State() == before[i])
               && (i != image ==> i.imageType == before[i].imageType && i.aliasTarget == before[i].aliasTarget)
    requires if target.Some? then image.imageType.Alias? && image.aliasTarget == target
             else image.imageType == before[image].imageType && image.aliasTarget == before[image].aliasTarget
    ensures Moved(before, Snapshot(universe), image, target)
  {
    SnapshotFields(universe);
  }

  lemma PendingFollows(images: seq<RSPImage>, fronts: map<string, RSPImage>, before: map<RSPImage, Saved>, now: map<RSPImage, Saved>,
                       image: RSPImage, target: Option<string>)
    requires Moved(before, now, image, target) && (!SharesDigest(images, image.digest) ==> now == before)
    requires target == if image.digest in fronts then Some(fronts[image.digest].tag) else None
    ensures Followed(images, fronts, before, now, {image})
  {
  }

  lemma MovedKnown(universe: set<RSPImage>, before: map<RSPImage, Saved>, image: RSPImage, target: Option<string>,
                   placed: map<string, RSPImage>, known: map<string, set<string>>, byDigest: map<string, RSPImage>)
    requires Moved(before, Snapshot(universe), image, target)
    requires known.Keys == placed.Keys && forall d | d in placed :: placed[d] in before && known[d] == before[placed[d]].aliases
    requires forall d | d in placed :: d in byDigest && byDigest[d] == placed[d]
    ensures forall d | d in placed :: known[d] <= Known(byDigest)[d]
  {
    SnapshotPlain(universe);
    forall d | d in placed ensures known[d] <= Known(byDigest)[d] {
      assert Snapshot(universe)[placed[d]] == placed[d].State();
    }
  }

  lemma KnownBefore(universe: set<RSPImage>, byDigest: map<string, RSPImage>)
    requires forall d | d in byDigest :: byDigest[d] in universe
    ensures Known(byDigest).Keys == byDigest.Keys
    ensures forall d | d in byDigest :: byDigest[d] in Snapshot(universe) && Known(byDigest)[d] == Snapshot(universe)[byDigest[d]].aliases
  {
    SnapshotPlain(universe);
  }

  lemma PlacedWithin(byDigest: map<string, RSPImage>, unresolved: map<string, seq<RSPImage>>, fronts: map<string, RSPImage>,
                     done: set<RSPImage>, images: seq<RSPImage>, known: map<string, set<string>>)
    requires PlacesOk(byDigest, unresolved, fronts, done, images, known)
    ensures forall d | d in byDigest :: byDigest[d] in SetOf(images)
  {
  }

  lemma SnapshotFields(universe: set<RSPImage>)
    ensures Snapshot(universe).Keys == universe
    ensures forall i | i in universe ::
              var s := Snapshot(universe)[i];
              && s.aliases == i.aliases && s.imageType == i.imageType && s.aliasTarget == i.aliasTarget
              && i.IsPossibleAlias() == MayBeAlias(s.imageType)
  {
  }

  lemma KnownKeys(byDigest: map<string, RSPImage>)
    ensures Known(byDigest).Keys == byDigest.Keys
    ensures forall d | d in byDigest :: Known(byDigest)[d] == byDigest[d].aliases
  {
  }

  lemma NothingResolved(reg: Registry, byDigest: map<string, RSPImage>)
    ensures Resolved(reg, [], byDigest) == reg
  {
    NothingTwice(byDigest);
  }

  lemma PlainTells(plain: set<RSPImage>, universe: set<RSPImage>)
    requires IsPlain(plain, universe)
    ensures Snapshot(universe).Keys == universe
    ensures forall i | i in universe :: i in plain <==> !i.IsPossibleAlias()
    ensures forall i | i in universe :: i in plain <==> !MayBeAlias(Snapshot(universe)[i].imageType)
  {
    SnapshotPlain(universe);
  }

  lemma PlainStill(plain: set<RSPImage>, universe: set<RSPImage>, before: map<RSPImage, Saved>, image: RSPImage, target: Option<string>)
    requires Moved(before, Snapshot(universe), image, target) && before.Keys == universe
    requires forall i | i in universe :: i in plain <==> !MayBeAlias(before[i].imageType)
    requires image !in plain
    ensures IsPlain(plain, universe)
  {
    SnapshotPlain(universe);
    forall i | i in universe ensures i in plain <==> !i.IsPossibleAlias() {
      assert Snapshot(universe)[i] == i.State();
    }
  }

  /** After the first pass, whether or not it got through. */
  lemma PassGrows(images: seq<RSPImage>, before: map<RSPImage, Saved>, universe: set<RSPImage>)
    requires PassWidened(images, before, Snapshot(universe)) && before.Keys == universe
    requires GenericBefore(before) ==> NoArchitectures(universe)
    ensures OnlyGrown(before) && IsPlain(PlainBefore(before), universe)
  {
    SnapshotPlain(universe);
    forall i | i in before
      ensures before[i].aliases <= i.aliases && i.imageType == before[i].imageType && i.aliasTarget.Some? == before[i].aliasTarget.Some?
    {
      assert Snapshot(universe)[i] == i.State();
    }
  }

  lemma FrontsWithin(fronts: map<string, RSPImage>, images: seq<RSPImage>, plain: set<RSPImage>)
    requires FrontsOk(fronts, images, plain)
    ensures forall d | d in fronts :: fronts[d] in SetOf(images)
  {
  }

  lemma PassesGrow(images: seq<RSPImage>, plain: set<RSPImage>, pending: seq<RSPImage>, fronts: map<string, RSPImage>,
                   before: map<RSPImage, Saved>, middle: map<RSPImage, Saved>, universe: set<RSPImage>)
    requires forall d :: d in fronts <==> Matched(d, images, plain)
    requires SetOf(pending) == SetOf(images) - plain && universe == before.Keys && plain == PlainBefore(before)
    requires PassWidened(images, before, middle) && Followed(images, fronts, middle, Snapshot(universe), SetOf(pending))
    requires IsPlain(plain, universe)
    requires GenericBefore(before) ==> NoArchitectures(universe)
    ensures OnlyGrown(before) && TypesResolved(images, plain, before)
    ensures forall i | i in universe :: middle[i].aliases <= i.aliases
    ensures forall i | i in universe && !SharesDigest(images, i.digest) :: i.State() == before[i]
    ensures forall i | i in SetOf(pending) && i.digest in fronts && i in universe ::
              i.imageType.Alias? && i.aliasTarget == Some(fronts[i.digest].tag)
  {
    hide SharesDigest, Matched, NoArchitectures, GenericBefore, SetOf;
    SnapshotPlain(universe);
    forall i | i in universe
      ensures middle[i].aliases <= i.aliases
      ensures before[i].aliases <= i.aliases && i.IsPossibleAlias() == MayBeAlias(before[i].imageType)
      ensures MayBeAlias(before[i].imageType) || i.imageType == before[i].imageType
      ensures before[i].aliasTarget.Some? ==> i.aliasTarget.Some?
      ensures !SharesDigest(images, i.digest) ==> i.State() == before[i]
      ensures i in SetOf(pending) && i.digest in fronts ==> i.imageType.Alias? && i.aliasTarget == Some(fronts[i.digest].tag)
    {
      assert Snapshot(universe)[i] == i.State();
    }
  }

  /** The two passes together. */
  lemma BothPasses(images: seq<RSPImage>, plain: set<RSPImage>, pending: seq<RSPImage>, fronts: map<string, RSPImage>,
                   known: map<string, set<string>>, before: map<RSPImage, Saved>, middle: map<RSPImage, Saved>,
                   byDigest: map<string, RSPImage>, unresolved: map<string, seq<RSPImage>>, universe: set<RSPImage>, reg: Registry)
    requires known.Keys == fronts.Keys && Covered(images, |images|, plain, fronts, known) && FrontsOk(fronts, images, plain)
    requires forall d | d in fronts :: IsFirst(images, |images|, plain, d, fronts[d])
    requires forall d :: d in fronts <==> Matched(d, images, plain)
    requires SetOf(pending) == SetOf(images) - plain && SetOf(images) <= universe == before.Keys && plain == PlainBefore(before)
    requires forall i | i in SetOf(images) - plain :: TagTwice(pending, i.tag) <==> TagTwice(images, i.tag)
    requires TagsAlike(SetOf(images), plain)
    requires PlacesOk(byDigest, unresolved, fronts, SetOf(pending), images, Known(byDigest))
    requires PassWidened(images, before, middle) && Followed(images, fronts, middle, Snapshot(universe), SetOf(pending))
    requires forall d | d in fronts :: fronts[d] in middle && known[d] == middle[fronts[d]].aliases
    requires IsPlain(plain, universe) && AllOk(universe, Resolved(Resolved(reg, images, fronts), pending, byDigest))
    requires GenericBefore(before) ==> NoArchitectures(universe)
    ensures Settled(images, before, byDigest, unresolved.Keys, reg) && OnlyGrown(before)
    ensures AllOk(universe, Resolved(reg, images, byDigest))
  {
    hide Covered, IsFirst, FrontsStand, AliasesResolved, SharesDigest, Matched, AllOk, Resolved, NoArchitectures, GenericBefore, PassWidened, Followed,
         TypesResolved, IsPlain, FrontsOk, PlacesOk, SetOf, OnlyGrown, TagsAlike, TagTwice;
    FrontsKept(images, plain, fronts, SetOf(pending), byDigest, unresolved, Known(byDigest));
    PassesGrow(images, plain, pending, fronts, before, middle, universe);
    EverybodyPlaced(images, plain, pending, fronts, known, byDigest, unresolved, universe);
    TwiceTotal(reg, images, plain, fronts, pending, byDigest, unresolved, Known(byDigest));
  }

  lemma NothingListed(images: seq<RSPImage>)
    ensures SetOf(images) == {} <==> images == []
  {
    if images != [] {
      assert images[0] in SetOf(images);
    }
  }

  lemma IndexesOk(byTag: map<string, RSPImage>, images: seq<RSPImage>, universe: set<RSPImage>)
    requires IndexesTags(byTag, images) && SetOf(images) <= universe
    ensures TagsOk(byTag, universe)
  {
    hide IsLast;
  }

  /** An image that is its own alias and does not have the tag of the one in front of its digest was so before. */
  lemma OwnBefore(reg: Registry, images: seq<RSPImage>, byDigest: map<string, RSPImage>, image: RSPImage, universe: set<RSPImage>)
    requires AllOk(universe, Resolved(reg, images, byDigest)) && image in universe && image.digest in byDigest
    ensures image.tag in image.aliases && byDigest[image.digest].tag != image.tag ==> image in reg.own
  {
    OwnDigest(image, Resolved(reg, images, byDigest));
  }

  /** Images that are no aliases target nobody. */
  lemma PlainUntargeted(images: seq<RSPImage>, before: map<RSPImage, Saved>, universe: set<RSPImage>, reg: Registry)
    requires AllOk(universe, reg) && before.Keys == universe && PassWidened(images, before, Snapshot(universe))
    ensures forall w | w in PlainBefore(before) :: w in Snapshot(universe) && Snapshot(universe)[w].aliasTarget.None?
  {
    TargetsBefore(universe, reg);
  }

  lemma NotBefore(byTag: map<string, RSPImage>, universe: set<RSPImage>, names: set<string>, name: string)
    requires TagsOk(byTag, universe) && name !in names && name in byTag
    ensures byTag[name] !in HeldUnder(byTag, universe, names)
  {
  }

  /** The tag collection inside an image collection, built from a list. */
  method Index(images: seq<RSPImage>) returns (byTag: map<string, RSPImage>, byType: map<ImageType, seq<RSPImage>>)
    ensures IndexesTags(byTag, images) && multiset(Everything(byType)) == multiset(images) && IndexOk(byTag, byType, SetOf(images))
    ensures TypesFit(byType)
    ensures (forall i | i in images :: WellParsed(i.Key())) ==> forall t | t in byType :: NewestFirst(byType[t])
  {
    byTag := IndexTags(images);
    byType := SeriesByType(images);
    IndexBoth(byTag, byType, images);
  }

  lemma IndexBoth(byTag: map<string, RSPImage>, byType: map<ImageType, seq<RSPImage>>, images: seq<RSPImage>)
    requires IndexesTags(byTag, images) && multiset(Everything(byType)) == multiset(images)
    ensures IndexOk(byTag, byType, SetOf(images))
  {
    hide Listing, IsLast;
    SameCounts(Everything(byType), images);
  }

  /** `[i for i in images if cycle is None or i.cycle == cycle]` */
  method KeepCycle(images: seq<RSPImage>, cycle: Option<nat>) returns (kept: seq<RSPImage>)
    ensures kept == OfCycle(images, cycle)
    ensures forall i | i in images :: multiset(kept)[i] == if cycle.None? || i.cycle == cycle then multiset(images)[i] else 0
    ensures forall i | i in kept :: i in images
  {
    kept := [];
    ghost var keep := set i | i in SetOf(images) && (cycle.None? || i.cycle == cycle);
    for n := 0 to |images|
      invariant kept == Among(images[..n], keep)
    {
      AmongNext(images, n, keep);
      if cycle.None? || images[n].cycle == cycle {
        kept := kept + [images[n]];
      }
    }
    assert images[..|images|] == images;
    forall i | i in images ensures multiset(kept)[i] == if cycle.None? || i.cycle == cycle then multiset(images)[i] else 0 {
      AmongCounts(images, keep, i);
      assert i in SetOf(images);
    }
    forall i | i in kept ensures i in images {
      AmongContains(images, keep, i);
    }
  }

  lemma OfCycleAre(images: seq<RSPImage>, cycle: Option<nat>)
    ensures SetOf(OfCycle(images, cycle)) == set i | i in SetOf(images) && (cycle.None? || i.cycle == cycle)
  {
    hide Among;
    AmongSet(images, set i | i in SetOf(images) && (cycle.None? || i.cycle == cycle));
  }

  lemma OfAnyCycle(images: seq<RSPImage>)
    ensures OfCycle(images, None) == images
  {
    var cycle: Option<nat> := None;
    AmongAll(images, set i | i in SetOf(images) && (cycle.None? || i.cycle == cycle));
  }

  /** The images that the first pass sets aside. */
  lemma PendingAre(images: seq<RSPImage>, plain: set<RSPImage>, universe: set<RSPImage>)
    requires SetOf(images) <= universe && TagsAlike(SetOf(images), plain)
    ensures SetOf(Among(images, universe - plain)) == SetOf(images) - plain
    ensures forall i | i in SetOf(images) - plain :: TagTwice(Among(images, universe - plain), i.tag) <==> TagTwice(images, i.tag)
  {
    hide Among, TagTwice;
    AmongSet(images, universe - plain);
    forall i | i in SetOf(images) - plain ensures TagTwice(Among(images, universe - plain), i.tag) <==> TagTwice(images, i.tag) {
      AmongTwice(images, universe - plain, i.tag);
    }
  }

  lemma {:induction false} AmongTwice(images: seq<RSPImage>, keep: set<RSPImage>, tag: string)
    requires forall i | i in SetOf(images) && i.tag == tag :: i in keep
    ensures TagTwice(Among(images, keep), tag) <==> TagTwice(images, tag)
    ensures (exists i | i in SetOf(Among(images, keep)) :: i.tag == tag) <==> exists i | i in SetOf(images) :: i.tag == tag
  {
    hide TagTwice;
    if images == [] {
      assert Among(images, keep) == images;
    } else {
      var n := |images| - 1;
      SetOfGrows(images, n);
      assert images[..n + 1] == images;
      AmongTwice(images[..n], keep, tag);
      TagTwiceNext(images, n, tag);
      var before, all := Among(images[..n], keep), Among(images, keep);
      AmongSet(images, keep);
      if images[n] in keep {
        assert all == before + [images[n]] && all[..|before|] == before && all[..|before| + 1] == all;
        TagTwiceNext(all, |before|, tag);
      } else {
        assert all == before;
      }
    }
  }

  /** A pending image that comes once more shares its digest, if only with itself. */
  lemma PendingAgain(images: seq<RSPImage>, plain: set<RSPImage>, pending: seq<RSPImage>, n: nat)
    requires n < |pending| && pending[n] in SetOf(pending[..n]) && pending[n] in SetOf(images) && TagsAlike(SetOf(images), plain)
    requires TagTwice(pending, pending[n].tag) ==> TagTwice(images, pending[n].tag)
    ensures SharesDigest(images, pending[n].digest)
  {
    var m :| 0 <= m < n && pending[..n][m] == pending[n];
    assert pending[m].tag == pending[n].tag;
    var a, b :| 0 <= a < b < |images| && images[a].tag == pending[n].tag && images[b].tag == pending[n].tag;
    assert images[a] in SetOf(images) && images[b] in SetOf(images);
  }

  /** A list without repeated tags makes no image its own alias. */
  lemma NeverTwice(images: seq<RSPImage>, byDigest: map<string, RSPImage>, reg: Registry)
    requires DistinctTags(images)
    ensures Resolved(reg, images, byDigest) == reg
  {
    assert TwiceInFront(images, byDigest) == {};
  }

  /** The second pass keeps the fronts of the first one, so both together account for the whole list. */
  lemma TwiceTotal(reg: Registry, images: seq<RSPImage>, plain: set<RSPImage>, fronts: map<string, RSPImage>, pending: seq<RSPImage>,
                   byDigest: map<string, RSPImage>, unresolved: map<string, seq<RSPImage>>, known: map<string, set<string>>)
    requires FrontsOk(fronts, images, plain) && PlacesOk(byDigest, unresolved, fronts, SetOf(pending), images, known)
    requires SetOf(pending) == SetOf(images) - plain && TagsAlike(SetOf(images), plain)
    requires forall i | i in SetOf(images) - plain :: TagTwice(pending, i.tag) <==> TagTwice(images, i.tag)
    ensures Resolved(Resolved(reg, images, fronts), pending, byDigest) == Resolved(reg, images, byDigest)
  {
    hide TagTwice;
    var first, second, all := TwiceInFront(images, fronts), TwiceInFront(pending, byDigest), TwiceInFront(images, byDigest);
    forall i | i in SetOf(images) ensures i in all <==> i in first || i in second {
      if i in plain {
        assert i !in SetOf(pending);
        if i.digest in byDigest && byDigest[i.digest].tag == i.tag {
          assert byDigest[i.digest] in SetOf(images);
        }
      } else if i.digest in fronts {
        assert fronts[i.digest] in SetOf(images) && fronts[i.digest].tag != i.tag;
      }
    }
    assert all == first + second;
    assert Resolved(Resolved(reg, images, fronts), pending, byDigest).own == Resolved(reg, images, byDigest).own;
  }

  /** One more image of a list, of a tag that is that of the image in front of its digest or not. */
  lemma TwiceStep(images: seq<RSPImage>, n: nat, before: map<string, RSPImage>, after: map<string, RSPImage>)
    requires n < |images| && forall i, j | i in SetOf(images) && j in SetOf(images) && i.tag == j.tag :: i.digest == j.digest
    requires after == before || (images[n].digest !in before && after == before[images[n].digest := images[n]])
    requires images[n].digest in before && before[images[n].digest].tag == images[n].tag ==> before[images[n].digest] in SetOf(images[..n])
    requires images[n].digest !in before && after != before ==> forall i | i in SetOf(images[..n]) :: i.tag != images[n].tag
    ensures TwiceInFront(images[..n + 1], after) == TwiceInFront(images[..n], before) +
            if images[n].digest in before && before[images[n].digest].tag == images[n].tag then {images[n], before[images[n].digest]} else {}
  {
    hide TagTwice;
    var x := images[n];
    SetOfGrows(images, n);
    forall i | i in SetOf(images[..n + 1])
      ensures i in TwiceInFront(images[..n + 1], after) <==>
                || i in TwiceInFront(images[..n], before)
                || (x.digest in before && before[x.digest].tag == x.tag && (i == x || i == before[x.digest]))
    {
      TagTwiceNext(images, n, i.tag);
      TagTwiceHas(images[..n], i.tag);
      if x.digest in before && before[x.digest].tag == x.tag && i.tag == x.tag {
        assert i.digest == x.digest;
        if i in SetOf(images[..n]) {
          TagOnce(images[..n], i, before[x.digest]);
        }
      }
    }
  }

  lemma TagTwiceNext(images: seq<RSPImage>, n: nat, tag: string)
    requires n < |images|
    ensures TagTwice(images[..n + 1], tag) <==>
              TagTwice(images[..n], tag) || (images[n].tag == tag && exists i | i in SetOf(images[..n]) :: i.tag == tag)
  {
    var more := images[..n + 1];
    assert more == images[..n] + [images[n]];
    if TagTwice(more, tag) && !TagTwice(images[..n], tag) {
      var a, b :| 0 <= a < b < |more| && more[a].tag == tag && more[b].tag == tag;
      assert images[..n][a] in SetOf(images[..n]);
    }
    if i :| i in SetOf(images[..n]) && i.tag == tag && images[n].tag == tag {
      var a :| 0 <= a < n && images[..n][a] == i;
      assert more[a].tag == tag && more[n].tag == tag;
    }
  }

  lemma TagTwiceHas(images: seq<RSPImage>, tag: string)
    ensures TagTwice(images, tag) ==> exists i | i in SetOf(images) :: i.tag == tag
  {
    if TagTwice(images, tag) {
      var a, b :| 0 <= a < b < |images| && images[a].tag == tag && images[b].tag == tag;
      assert images[a] in SetOf(images);
    }
  }

  lemma TagOnce(images: seq<RSPImage>, i: RSPImage, j: RSPImage)
    requires i in SetOf(images) && j in SetOf(images) && i.tag == j.tag
    ensures TagTwice(images, i.tag) || i == j
  {
    var a :| 0 <= a < |images| && images[a] == i;
    var b :| 0 <= b < |images| && images[b] == j;
    assert a < b || b < a || a == b;
  }

  /** One more pending image is its own alias exactly if it has the tag of the one in front, which then is as well. */
  lemma PendingRegistry(reg: Registry, pending: seq<RSPImage>, n: nat, images: seq<RSPImage>, plain: set<RSPImage>,
                        before: map<string, RSPImage>, unresolved: map<string, seq<RSPImage>>, known: map<string, set<string>>,
                        fronts: map<string, RSPImage>, after: map<string, RSPImage>)
    requires n < |pending| && SetOf(pending) == SetOf(images) - plain && FrontsOk(fronts, images, plain) && TagsAlike(SetOf(images), plain)
    requires PlacesOk(before, unresolved, fronts, SetOf(pending[..n]), images, known)
    requires after == if pending[n].digest in before then before else before[pending[n].digest := pending[n]]
    ensures var was, i := Resolved(reg, pending[..n], before), pending[n];
            Resolved(reg, pending[..n + 1], after) == if i.digest in before then Selfed(was, i, before[i.digest]) else was
  {
    hide TwiceInFront;
    var x, was, now := pending[n], Resolved(reg, pending[..n], before), Resolved(reg, pending[..n + 1], after);
    SetOfGrows(pending, n);
    if x.digest in before && before[x.digest].tag == x.tag {
      assert before[x.digest] in SetOf(images);
      assert x.digest !in fronts;
    }
    TwiceStep(pending, n, before, after);
    if x.digest in before && before[x.digest].tag == x.tag {
      assert now.own == was.own + {x, before[x.digest]} == was.With(x).With(before[x.digest]).own;
    } else {
      assert now.own == was.own;
    }
  }

  /** Where no two images have one tag, exactly those in front that are listed twice. */
  lemma TwiceIs(images: seq<RSPImage>, byDigest: map<string, RSPImage>, i: RSPImage)
    requires TagsApart(SetOf(images)) && forall d | d in byDigest :: byDigest[d] in SetOf(images)
    ensures i in TwiceInFront(images, byDigest) <==> multiset(images)[i] >= 2 && i.digest in byDigest && byDigest[i.digest] == i
  {
    assert i in SetOf(images) <==> multiset(images)[i] >= 1;
    if i in SetOf(images) && TagTwice(images, i.tag) {
      var a, b :| 0 <= a < b < |images| && images[a].tag == i.tag && images[b].tag == i.tag;
      assert images[a] in SetOf(images) && images[b] in SetOf(images);
      TwiceCounts(images, a, b);
    }
    if multiset(images)[i] >= 2 {
      var a, b := CountsTwice(images, i);
      assert images[a].tag == i.tag && images[b].tag == i.tag;
    }
  }

  lemma IndexTagsOk(byTag: map<string, RSPImage>, byType: map<ImageType, seq<RSPImage>>, members: set<RSPImage>, universe: set<RSPImage>)
    requires IndexOk(byTag, byType, members) && members <= universe
    ensures TagsOk(byTag, universe) && byTag.Values <= members
    ensures forall i | i in members :: i.tag in byTag
    ensures TagsApart(members) ==> forall i | i in members :: byTag[i.tag] == i
  {
    hide Listing;
  }

  lemma SettledParsed(images: seq<RSPImage>, before: map<RSPImage, Saved>, byDigest: map<string, RSPImage>,
                      waiting: set<string>, reg: Registry)
    requires SetOf(images) <= before.Keys
    ensures Settled(images, before, byDigest, waiting, reg) ==> forall i | i in images :: WellParsed(i.Key())
  {
    hide Resolved, WellParsed, FrontsStand, AliasesResolved, TypesResolved, OnlyGrown;
    if Settled(images, before, byDigest, waiting, reg) {
      forall i | i in images ensures WellParsed(i.Key()) {
        assert i in SetOf(images) && ImageOk(i, Resolved(reg, images, byDigest));
      }
    }
  }

  lemma SmallerOk(images: set<RSPImage>, universe: set<RSPImage>, reg: Registry)
    requires AllOk(universe, reg) && images <= universe
    ensures AllOk(images, reg)
  {
  }

  lemma TypesKept(before: map<RSPImage, Saved>)
    requires forall i | i in before ::
               before[i].aliases <= i.aliases && i.imageType == before[i].imageType
               && i.aliasTarget.Some? == before[i].aliasTarget.Some?
    requires GenericBefore(before) ==> NoArchitectures(before.Keys)
    ensures OnlyGrown(before)
  {
  }

  lemma OnlyOneChanged(before: map<RSPImage, Saved>, image: RSPImage)
    requires forall i | i in before :: before[i].aliases <= i.aliases
    requires forall i | i in before && i != image :: i.imageType == before[i].imageType && i.aliasTarget == before[i].aliasTarget
    requires image in before && MayBeAlias(before[image].imageType) && image.IsPossibleAlias()
    requires before[image].aliasTarget.Some? ==> image.aliasTarget.Some?
    requires GenericBefore(before) ==> NoArchitectures(before.Keys)
    ensures OnlyGrown(before)
  {
  }

  lemma FollowerStands(was: map<RSPImage, Saved>, byDigest: map<string, RSPImage>, waiting: set<string>, image: RSPImage,
                       now: map<RSPImage, Saved>, byDigest': map<string, RSPImage>, waiting': set<string>)
    requires FrontsAt(was, byDigest, waiting) && Grown(was, now) && now.Keys == was.Keys + {image}
    requires MayBeAlias(now[image].imageType)
    requires byDigest' == if image.digest in byDigest then byDigest else byDigest[image.digest := image]
    requires image.digest in byDigest ==> image.tag in now[byDigest[image.digest]].aliases
    requires waiting' == waiting + if image.digest in byDigest && MayBeAlias(was[byDigest[image.digest]].imageType)
                                   then {image.digest} else {}
    ensures FrontsAt(now, byDigest', waiting')
  {
  }

  lemma LeaderStands(was: map<RSPImage, Saved>, byDigest: map<string, RSPImage>, waiting: set<string>, image: RSPImage,
                     now: map<RSPImage, Saved>)
    requires FrontsAt(was, byDigest, waiting) && Grown(was, now) && now.Keys == was.Keys + {image}
    requires !MayBeAlias(now[image].imageType) && image.digest !in waiting
    requires image.digest in byDigest ==>
               var rep := byDigest[image.digest];
               && rep.tag in now[image].aliases
               && forall i | i in was && i.tag in was[rep].aliases && i.tag != image.tag :: i.tag in now[image].aliases
    ensures FrontsAt(now, byDigest[image.digest := image], waiting)
  {
  }

  /** A collection stands whatever is done to its images through other collections. */
  lemma StillStands(was: map<RSPImage, Saved>, byDigest: map<string, RSPImage>, waiting: set<string>, now: map<RSPImage, Saved>)
    requires FrontsAt(was, byDigest, waiting) && Grown(was, now) && now.Keys == was.Keys
    ensures FrontsAt(now, byDigest, waiting)
    ensures forall byTag | FoundAt(was, byTag, byDigest) :: FoundAt(now, byTag, byDigest)
  {
  }

  lemma NamedNext(byTag: map<string, RSPImage>, names: set<string>, name: string)
    requires (forall t | t in byTag :: byTag[t].tag == t) && name !in names
    ensures NamedIn(byTag, names + {name}) == NamedIn(byTag, names) + if name in byTag then {byTag[name]} else {}
    ensures name in byTag ==> forall i | i in NamedIn(byTag, names) :: i.tag != byTag[name].tag
  {
  }

  lemma JoinLists(a: seq<RSPImage>, b: seq<RSPImage>)
    requires DistinctTags(a) && DistinctTags(b) && forall i, j | i in SetOf(a) && j in SetOf(b) :: i.tag != j.tag
    ensures DistinctTags(a + b) && SetOf(a + b) == SetOf(a) + SetOf(b)
  {
    forall m, n | 0 <= m < n < |a + b| ensures (a + b)[m].tag != (a + b)[n].tag {
      if m < |a| <= n {
        assert a[m] in SetOf(a) && b[n - |a|] in SetOf(b);
      }
    }
  }

  lemma ThreeLists(byType: map<ImageType, seq<RSPImage>>, a: seq<RSPImage>, b: seq<RSPImage>, d: seq<RSPImage>)
    requires a == ListOf(byType, Release) && b == ListOf(byType, Weekly) && d == ListOf(byType, Daily)
    requires DistinctTags(Everything(byType))
    ensures DistinctTags(a + (b + d)) && SetOf(a + (b + d)) <= SetOf(Everything(byType))
  {
    hide Listing;
    var all, before := Everything(byType), Listing(byType, 1);
    ListingPrefix(byType, 4, KINDS);
    ListingSplit(byType, 2);
    ListingSplit(byType, 3);
    ListingSplit(byType, 4);
    var three := a + (b + d);
    assert Listing(byType, 4) == before + three;
    assert forall k | 0 <= k < |three| :: three[k] == all[|before| + k];
  }

  lemma Apart(a: seq<RSPImage>, b: seq<RSPImage>)
    requires DistinctTags(a + b)
    ensures DistinctTags(a) && DistinctTags(b) && SetOf(a + b) == SetOf(a) + SetOf(b)
    ensures forall i, j | i in SetOf(a) && j in SetOf(b) :: i.tag != j.tag
  {
    forall m, n | 0 <= m < n < |a| ensures a[m].tag != a[n].tag {
      assert (a + b)[m] == a[m] && (a + b)[n] == a[n];
    }
    forall m, n | 0 <= m < n < |b| ensures b[m].tag != b[n].tag {
      assert (a + b)[|a| + m] == b[m] && (a + b)[|a| + n] == b[n];
    }
    forall i, j | i in SetOf(a) && j in SetOf(b) ensures i.tag != j.tag {
      var m :| 0 <= m < |a| && a[m] == i;
      var n :| 0 <= n < |b| && b[n] == j;
      assert (a + b)[m] == i && (a + b)[|a| + n] == j;
    }
  }

  lemma FirstAre(images: seq<RSPImage>, total: nat, removeArch: bool)
    requires DistinctTags(images)
    ensures DistinctTags(FirstOf(images, total, removeArch)) && SetOf(FirstOf(images, total, removeArch)) <= SetOf(images)
  {
    hide Among;
    var shown := Visible(images, removeArch);
    AmongAre(images, Shown(SetOf(images), removeArch));
    assert forall i | i in FirstOf(images, total, removeArch) :: i in SetOf(shown);
  }

  lemma NamedAre(byTag: map<string, RSPImage>, names: set<string>)
    ensures NamedIn(byTag, names) <= byTag.Values
  {
  }

  /** A list of what is picked by count, in whatever order, and of what is included by name. */
  ghost predicate ListsBoth(all: seq<RSPImage>, picked: seq<RSPImage>, named: set<RSPImage>) {
    && SetOf(all) == SetOf(picked) + named
    && forall i | i in SetOf(all) :: multiset(all)[i] == multiset(picked)[i] + if i in named then 1 else 0
  }

  /** What is registered of a subset: an image picked and included as well, or picked twice, is its own alias if it is in front. */
  ghost function SubsetRegistry(reg: Registry, picked: seq<RSPImage>, named: set<RSPImage>, byDigest: map<string, RSPImage>): Registry {
    reg.(own := reg.own + set i | i in SetOf(picked) && (i in named || multiset(picked)[i] >= 2)
                                             && i.digest in byDigest && byDigest[i.digest] == i)
  }

  lemma SetOfSum(a: seq<RSPImage>, b: seq<RSPImage>)
    ensures SetOf(a + b) == SetOf(a) + SetOf(b)
  {
  }

  lemma BothListed(tags: seq<RSPImage>, more: seq<RSPImage>, all: seq<RSPImage>)
    requires multiset(all) == multiset(tags + more) && DistinctTags(more)
    ensures ListsBoth(all, tags, SetOf(more)) && SetOf(all) == SetOf(tags) + SetOf(more)
  {
    SameCounts(all, tags + more);
    SetOfSum(tags, more);
    DistinctOnce(more);
  }

  lemma BothRegistered(reg: Registry, all: seq<RSPImage>, picked: seq<RSPImage>, named: set<RSPImage>, byDigest: map<string, RSPImage>)
    requires ListsBoth(all, picked, named) && forall d | d in byDigest :: byDigest[d] in SetOf(all)
    ensures TagsApart(SetOf(all)) ==> Resolved(reg, all, byDigest) == SubsetRegistry(reg, picked, named, byDigest)
  {
    if TagsApart(SetOf(all)) {
      var after := SubsetRegistry(reg, picked, named, byDigest);
      forall i: RSPImage ensures i in TwiceInFront(all, byDigest) <==>
        i in SetOf(picked) && (i in named || multiset(picked)[i] >= 2) && i.digest in byDigest && byDigest[i.digest] == i
      {
        TwiceIs(all, byDigest, i);
        assert i in SetOf(picked) <==> multiset(picked)[i] >= 1;
      }
      assert Resolved(reg, all, byDigest).own == after.own;
    }
  }

  /** What an image was sorted by. */
  function KeyAt(i: RSPImage, s: Saved): Tag {
    i.parsed.(imageType := s.imageType, cycle := s.cycle, architecture := s.architecture, date := s.date)
  }

  /** Whether one image came before another in a menu, or as early. */
  predicate MenuBeforeAt(before: map<RSPImage, Saved>, a: RSPImage, b: RSPImage)
    requires a in before && b in before
  {
    || Rank(before[a].imageType) < Rank(before[b].imageType)
    || (before[a].imageType == before[b].imageType && Compare(KeyAt(b, before[b]), KeyAt(a, before[a])) <= 0)
  }

  ghost predicate InMenuOrderAt(before: map<RSPImage, Saved>, images: seq<RSPImage>) {
    forall a, b | 0 <= a < b < |images| :: images[a] in before && images[b] in before && MenuBeforeAt(before, images[a], images[b])
  }

  lemma MenuOrderNow(images: seq<RSPImage>, universe: set<RSPImage>)
    requires InMenuOrder(images) && SetOf(images) <= universe
    ensures InMenuOrderAt(Snapshot(universe), images)
  {
    hide Compare, Rank;
    SnapshotPlain(universe);
    forall a, b | 0 <= a < b < |images|
      ensures images[a] in universe && images[b] in universe && MenuBeforeAt(Snapshot(universe), images[a], images[b])
    {
      assert images[a] in SetOf(images) && images[b] in SetOf(images);
      assert MenuBefore(images[a], images[b]);
    }
  }

  /** The image in front of a digest is one that no other of its images that is no alias came before in a menu. */
  ghost predicate FirstInMenu(members: set<RSPImage>, byDigest: map<string, RSPImage>, before: map<RSPImage, Saved>) {
    forall i | i in members * PlainBefore(before) ::
      && i.digest in byDigest && byDigest[i.digest] in PlainBefore(before)
      && (byDigest[i.digest] == i || MenuBeforeAt(before, byDigest[i.digest], i))
  }

  lemma FrontsAreFirst(images: seq<RSPImage>, before: map<RSPImage, Saved>, byDigest: map<string, RSPImage>)
    requires InMenuOrderAt(before, images) && AliasesResolved(images, PlainBefore(before), byDigest)
    ensures FirstInMenu(SetOf(images), byDigest, before)
  {
    hide Compare, Rank, MenuBeforeAt;
    var plain := PlainBefore(before);
    forall i | i in SetOf(images) * plain
      ensures i.digest in byDigest && byDigest[i.digest] in plain
      ensures byDigest[i.digest] == i || MenuBeforeAt(before, byDigest[i.digest], i)
    {
      var k :| 0 <= k < |images| && images[k] == i;
      var front := byDigest[i.digest];
      var f :| 0 <= f < |images| && images[f] == front && front in plain
               && forall m | 0 <= m < f && images[m].digest == i.digest :: images[m] !in plain;
      assert f <= k;
    }
  }

  /** The loop of `subtract`. */
  method WithoutDigests(byDigest: map<string, RSPImage>, images: seq<RSPImage>) returns (candidates: map<string, RSPImage>)
    ensures candidates == byDigest - DigestsOf(images)
  {
    candidates := byDigest;
    for n := 0 to |images|
      invariant candidates == byDigest - DigestsOf(images[..n])
    {
      assert images[..n + 1] == images[..n] + [images[n]];
      if images[n].digest in candidates {
        candidates := candidates - {images[n].digest};
      }
    }
    assert images[..|images|] == images;
  }

  /** The values of a map, in some order. */
  method ValuesOf(candidates: map<string, RSPImage>) returns (list: seq<RSPImage>)
    requires forall d | d in candidates :: candidates[d].digest == d
    ensures SetOf(list) == candidates.Values
    ensures forall a, b | 0 <= a < b < |list| :: list[a].digest != list[b].digest
  {
    list := [];
    var todo := candidates;
    while todo.Keys != {}
      invariant todo.Keys <= candidates.Keys && forall d | d in todo :: todo[d] == candidates[d]
      invariant forall i | i in list :: i.digest in candidates.Keys - todo.Keys && candidates[i.digest] == i
      invariant forall d | d in candidates.Keys - todo.Keys :: candidates[d] in list
      invariant forall a, b | 0 <= a < b < |list| :: list[a].digest != list[b].digest
      decreases todo.Keys
    {
      var d :| d in todo;
      list := list + [todo[d]];
      todo := todo - {d};
    }
    assert forall i | i in candidates.Values :: i in list;
  }

  lemma OneEach(list: seq<RSPImage>, members: set<RSPImage>, reg: Registry)
    requires AllOk(members, reg) && SetOf(list) <= members
    requires forall a, b | 0 <= a < b < |list| :: list[a].digest != list[b].digest
    ensures DistinctTags(list) && forall d :: !SharesDigest(list, d)
  {
    AllOwn(members, reg);
    forall a, b | 0 <= a < b < |list| ensures list[a].tag != list[b].tag {
      assert list[a] in SetOf(list) && list[b] in SetOf(list);
    }
  }

  lemma SameFronts(byDigest: map<string, RSPImage>, members: set<RSPImage>, candidates: map<string, RSPImage>)
    requires members == candidates.Values && forall d | d in candidates :: candidates[d].digest == d
    requires forall d | d in byDigest :: byDigest[d] in members && byDigest[d].digest == d
    requires forall i | i in members :: i.digest in byDigest
    ensures byDigest == candidates && byDigest.Values == members
  {
    forall d | d in candidates ensures d in byDigest && byDigest[d] == candidates[d] {
      assert candidates[d] in members;
    }
  }

  lemma ListedIn(byType: map<ImageType, seq<RSPImage>>, t: ImageType)
    ensures forall i | i in ListOf(byType, t) :: i in SetOf(Everything(byType))
  {
    RankIsPlace(t, Rank(t));
    ListingSplit(byType, Rank(t) + 1);
    ListingPrefix(byType, Rank(t) + 1, KINDS);
    hide Listing, TypeAt;
    var n := |Listing(byType, Rank(t))|;
    forall i | i in ListOf(byType, t) ensures i in SetOf(Everything(byType)) {
      var k :| 0 <= k < |ListOf(byType, t)| && ListOf(byType, t)[k] == i;
      assert Listing(byType, Rank(t) + 1)[n + k] == i;
      assert Everything(byType)[n + k] == i;
    }
  }

  lemma NobodyWaits(members: set<RSPImage>, byDigest: map<string, RSPImage>, waiting: set<string>, digest: string)
    requires FrontsStand(members, byDigest, waiting) && digest !in byDigest
    ensures digest !in waiting
  {
  }

  lemma SnapshotPlain(universe: set<RSPImage>)
    ensures Snapshot(universe).Keys == universe && PlainBefore(Snapshot(universe)) == PlainAmong(universe)
    ensures forall i | i in universe :: Snapshot(universe)[i] == i.State()
    ensures GenericBefore(Snapshot(universe)) <==> NoArchitectures(universe)
  {
  }

  lemma FirstsAreFronts(images: seq<RSPImage>, plain: set<RSPImage>, byDigest: map<string, RSPImage>,
                        known: map<string, set<string>>)
    requires forall d | d in byDigest :: IsFirst(images, |images|, plain, d, byDigest[d])
    requires known.Keys == byDigest.Keys && Covered(images, |images|, plain, byDigest, known)
    ensures FrontsOk(byDigest, images, plain)
    ensures forall d :: d in byDigest <==> Matched(d, images, plain)
  {
    forall d | d in byDigest ensures byDigest[d] in images && byDigest[d] in plain && byDigest[d].digest == d {
      assert IsFirst(images, |images|, plain, d, byDigest[d]);
    }
    forall d | Matched(d, images, plain) ensures d in byDigest {
      var m :| 0 <= m < |images| && images[m] in plain && images[m].digest == d;
    }
  }

  lemma FrontsKept(images: seq<RSPImage>, plain: set<RSPImage>, fronts: map<string, RSPImage>, done: set<RSPImage>,
                   byDigest: map<string, RSPImage>, unresolved: map<string, seq<RSPImage>>, known: map<string, set<string>>)
    requires FrontsOk(fronts, images, plain) && PlacesOk(byDigest, unresolved, fronts, done, images, known)
    ensures forall d | d in fronts :: d in byDigest && byDigest[d] == fronts[d] && fronts[d] in SetOf(images)
  {
  }

  lemma EverybodyPlaced(images: seq<RSPImage>, plain: set<RSPImage>, pending: seq<RSPImage>,
                        fronts: map<string, RSPImage>, knownFirst: map<string, set<string>>,
                        byDigest: map<string, RSPImage>, unresolved: map<string, seq<RSPImage>>, universe: set<RSPImage>)
    requires knownFirst.Keys == fronts.Keys && Covered(images, |images|, plain, fronts, knownFirst)
    requires forall d | d in fronts :: IsFirst(images, |images|, plain, d, fronts[d])
    requires SetOf(pending) == SetOf(images) - plain
    requires PlacesOk(byDigest, unresolved, fronts, SetOf(pending), images, Known(byDigest))
    requires forall d | d in fronts :: d in byDigest && knownFirst[d] <= byDigest[d].aliases
    requires IsPlain(plain, universe) && SetOf(images) <= universe
    requires forall i | i in SetOf(pending) && i.digest in fronts ::
               i.imageType.Alias? && i.aliasTarget == Some(fronts[i.digest].tag)
    ensures FrontsStand(SetOf(images), byDigest, unresolved.Keys)
    ensures AliasesResolved(images, plain, byDigest)
  {
    forall d | d in fronts ensures fronts[d] in plain && fronts[d].digest == d && byDigest[d] == fronts[d] {
      assert IsFirst(images, |images|, plain, d, fronts[d]);
    }
    forall i | i in SetOf(images)
      ensures i.digest in byDigest && (i == byDigest[i.digest] || i.tag in byDigest[i.digest].aliases)
      ensures i in plain ==> i.digest in fronts
    {
      var m :| 0 <= m < |images| && images[m] == i;
      assert i !in plain ==> i in SetOf(pending);
    }
  }

  lemma NothingPlaced(images: seq<RSPImage>, plain: set<RSPImage>)
    ensures Covered(images, 0, plain, map[], map[])
  {
  }

  /** Whoever is in front of a digest comes earlier in the list: it is another image, or the same one once more. */
  lemma FrontShares(images: seq<RSPImage>, n: nat, plain: set<RSPImage>, rep: RSPImage)
    requires n < |images| && IsFirst(images, n, plain, images[n].digest, rep)
    ensures SharesDigest(images, images[n].digest)
    ensures rep in SetOf(images) && rep.digest == images[n].digest
  {
  }

  lemma NothingTwice(byDigest: map<string, RSPImage>)
    ensures TwiceInFront([], byDigest) == {}
  {
  }

  lemma IsFirstIn(images: seq<RSPImage>, n: nat, plain: set<RSPImage>, digest: string, rep: RSPImage)
    requires n <= |images| && IsFirst(images, n, plain, digest, rep)
    ensures rep.digest == digest && rep in plain && rep in SetOf(images[..n]) && multiset(images[..n])[rep] >= 1
  {
    var f :| 0 <= f < n && images[f] == rep;
    assert images[..n][f] == rep;
    assert rep in images[..n];
  }

  /** One more image of the list makes it and the one in front their own aliases exactly if it has that one's tag. */
  lemma RegistryNext(reg: Registry, images: seq<RSPImage>, n: nat, plain: set<RSPImage>, before: map<string, RSPImage>,
                     known: map<string, set<string>>, after: map<string, RSPImage>)
    requires n < |images| && PlacedNext(images[n], plain, before, after)
    requires forall d | d in before :: IsFirst(images, n, plain, d, before[d])
    requires known.Keys == before.Keys && Covered(images, n, plain, before, known) && TagsAlike(SetOf(images), plain)
    ensures var was := Resolved(reg, images[..n], before);
            Resolved(reg, images[..n + 1], after) ==
            if images[n] in plain && images[n].digest in before then Selfed(was, before[images[n].digest], images[n]) else was
  {
    hide IsFirst, TwiceInFront;
    var x := images[n];
    var was, now := Resolved(reg, images[..n], before), Resolved(reg, images[..n + 1], after);
    SetOfGrows(images, n);
    if x.digest in before {
      IsFirstIn(images, n, plain, x.digest, before[x.digest]);
    } else if x in plain {
      forall i | i in SetOf(images[..n]) ensures i.tag != x.tag {
        var m :| 0 <= m < n && images[..n][m] == i;
        assert images[m] == i;
      }
    }
    TwiceStep(images, n, before, after);
    if x.digest in before && before[x.digest].tag == x.tag {
      assert now.own == was.own + {x, before[x.digest]} == was.With(before[x.digest]).With(x).own;
    } else {
      assert now.own == was.own;
    }
  }

  lemma FirstsNext(images: seq<RSPImage>, n: nat, plain: set<RSPImage>,
                   before: map<string, RSPImage>, known: map<string, set<string>>, after: map<string, RSPImage>)
    requires n < |images| && PlacedNext(images[n], plain, before, after)
    requires forall d | d in before :: IsFirst(images, n, plain, d, before[d])
    requires known.Keys == before.Keys && Covered(images, n, plain, before, known)
    ensures forall d | d in after :: IsFirst(images, n + 1, plain, d, after[d])
  {
    forall d | d in after ensures IsFirst(images, n + 1, plain, d, after[d]) {
      if d in before {
        assert IsFirst(images, n, plain, d, before[d]);
      } else {
        assert images[n] == after[d];
      }
    }
  }

  lemma CoveredNext(images: seq<RSPImage>, n: nat, plain: set<RSPImage>,
                    before: map<string, RSPImage>, knownBefore: map<string, set<string>>,
                    after: map<string, RSPImage>, knownAfter: map<string, set<string>>)
    requires n < |images| && PlacedNext(images[n], plain, before, after)
    requires knownBefore.Keys == before.Keys && knownAfter.Keys == after.Keys
    requires Covered(images, n, plain, before, knownBefore)
    requires forall d | d in before :: knownBefore[d] <= knownAfter[d]
    requires images[n] in plain && images[n].digest in before ==> images[n].tag in knownAfter[images[n].digest]
    ensures Covered(images, n + 1, plain, after, knownAfter)
  {
  }

  lemma FrontsPlaced(fronts: map<string, RSPImage>, images: seq<RSPImage>,
                     plain: set<RSPImage>, known: map<string, set<string>>)
    requires FrontsOk(fronts, images, plain) && known.Keys == fronts.Keys
    ensures PlacesOk(fronts, map[], fronts, {}, images, known)
  {
  }

  /** Whoever a pending image meets in front of its digest is another image of the list, or the same one once more. */
  lemma PendingMeets(byDigest: map<string, RSPImage>, unresolved: map<string, seq<RSPImage>>,
                     fronts: map<string, RSPImage>, done: set<RSPImage>, image: RSPImage,
                     images: seq<RSPImage>, plain: set<RSPImage>, known: map<string, set<string>>)
    requires PlacesOk(byDigest, unresolved, fronts, done, images, known)
    requires FrontsOk(fronts, images, plain) && TagsAlike(SetOf(images), plain)
    requires image in SetOf(images) && image !in plain && done !! plain
    requires image in done ==> SharesDigest(images, image.digest)
    ensures image.digest in byDigest ==>
              var rep := byDigest[image.digest];
              && rep in SetOf(images) && (rep in plain ==> rep.tag != image.tag) && rep.digest == image.digest
              && SharesDigest(images, image.digest)
              && (rep in plain <==> image.digest in fronts)
    ensures image.digest in fronts ==> image.digest in byDigest && byDigest[image.digest] == fronts[image.digest]
  {
    if image.digest in byDigest {
      var rep := byDigest[image.digest];
      var a :| 0 <= a < |images| && images[a] == rep;
      var b :| 0 <= b < |images| && images[b] == image;
      assert a == b || a < b || b < a;
    }
  }

  lemma PlacesNext(byDigest: map<string, RSPImage>, unresolved: map<string, seq<RSPImage>>, known: map<string, set<string>>,
                   byDigest': map<string, RSPImage>, unresolved': map<string, seq<RSPImage>>, known': map<string, set<string>>,
                   fronts: map<string, RSPImage>, done: set<RSPImage>, image: RSPImage, images: seq<RSPImage>)
    requires PlacesOk(byDigest, unresolved, fronts, done, images, known) && image in SetOf(images)
    requires byDigest' == (if image.digest in byDigest then byDigest else byDigest[image.digest := image])
    requires unresolved'.Keys == unresolved.Keys + (if image.digest in fronts then {} else {image.digest})
    requires known'.Keys == byDigest'.Keys && forall d | d in byDigest :: known[d] <= known'[d]
    requires image.digest in byDigest ==> image.tag in known'[image.digest]
    ensures PlacesOk(byDigest', unresolved', fronts, done + {image}, images, known')
  {
  }
}
