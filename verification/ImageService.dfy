/** Which images each node is missing, and how prepulling them empties that list. */
module ImageServices {
  import opened Wrappers
  import opened Images
  import opened ImageLists
  import opened ImageFronts
  import opened ImageClashes
  import opened ImageIndex

  // ----- several collections that share their images

  ghost predicate AllStars(cs: set<RSPImageCollection>, universe: set<RSPImage>, reg: Registry)
    reads cs, universe`imageType, universe`cycle, universe`architecture,
          universe`date, universe`aliases, universe`aliasTarget
  {
    forall c | c in cs :: c.members <= universe && c.Star(reg)
  }

  /** The part of a snapshot that one collection is about. */
  ghost function Only(before: map<RSPImage, Saved>, members: set<RSPImage>): map<RSPImage, Saved> {
    map i | i in before && i in members :: before[i]
  }

  /** The same collections, against images as they were. */
  ghost predicate AllStand(cs: set<RSPImageCollection>, before: map<RSPImage, Saved>)
    reads cs
  {
    forall c | c in cs ::
      && c.members <= before.Keys && IndexOk(c.byTag, c.byType, c.members)
      && FrontsAt(Only(before, c.members), c.byDigest, c.unresolved.Keys)
      && FoundAt(Only(before, c.members), c.byTag, c.byDigest)
  }

  lemma StarsStand(cs: set<RSPImageCollection>, universe: set<RSPImage>, reg: Registry)
    requires AllStars(cs, universe, reg)
    ensures AllStand(cs, Snapshot(universe))
  {
    hide IndexOk, FrontsAt, FoundAt;
    SnapshotPlain(universe);
    forall c | c in cs
      ensures c.members <= Snapshot(universe).Keys && IndexOk(c.byTag, c.byType, c.members)
      ensures FrontsAt(Only(Snapshot(universe), c.members), c.byDigest, c.unresolved.Keys)
      ensures FoundAt(Only(Snapshot(universe), c.members), c.byTag, c.byDigest)
    {
      StarParts(c, reg);
      assert Only(Snapshot(universe), c.members) == Snapshot(c.members);
    }
  }

  lemma StillStars(cs: set<RSPImageCollection>, before: map<RSPImage, Saved>, reg: Registry)
    requires AllStand(cs, before) && AllOk(before.Keys, reg) && OnlyGrown(before)
    ensures AllStars(cs, before.Keys, reg)
  {
    hide IndexOk, FrontsAt, FoundAt, OnlyGrown, AllOk;
    forall c | c in cs ensures c.members <= before.Keys && c.Star(reg) {
      StarKept(c, before, Only(before, c.members), reg);
    }
  }

  lemma SameStates(before: map<RSPImage, Saved>)
    requires forall i | i in before :: i.State() == before[i]
    ensures OnlyGrown(before) && Snapshot(before.Keys) == before
  {
  }

  /** The images that are not for one architecture. */
  ghost function GenericIn(now: map<RSPImage, Saved>): set<RSPImage> {
    set i | i in now && now[i].architecture.GetOr("") == ""
  }

  /** The digests of some images that are not for one architecture. */
  ghost function DigestsIn(members: set<RSPImage>, now: map<RSPImage, Saved>): set<string> {
    set i | i in members && i in GenericIn(now) :: i.digest
  }

  /** The digests in front of which is an image that is not for one architecture. */
  ghost function FrontsIn(byDigest: map<string, RSPImage>, now: map<RSPImage, Saved>): set<string> {
    set d | d in byDigest && byDigest[d] in GenericIn(now)
  }

  /** What `all_images` lists of a collection. */
  lemma GenericOf(c: RSPImageCollection, universe: set<RSPImage>, reg: Registry)
    requires c.Star(reg) && c.members <= universe
    ensures var all := Visible(Everything(c.byType), true);
            && SetOf(all) == c.members * GenericIn(Snapshot(universe))
            && (ListedOnce(c.byType) && TagsApart(c.members) ==> DistinctTags(all))
    ensures c.GenericDigests() == DigestsIn(c.members, Snapshot(universe))
  {
    hide IndexOk, FrontsAt, FoundAt, AllOk, Among, ImageOk, DistinctTags, TagsApart, RSPImageCollection.Star, Listing, ListedOnce;
    var images := Everything(c.byType);
    SnapshotPlain(universe);
    StarParts(c, reg);
    IndexLists(c.byTag, c.byType, c.members);
    AmongSet(images, Shown(SetOf(images), true));
    DigestsListed(Visible(images, true));
    if ListedOnce(c.byType) && TagsApart(c.members) {
      AmongAre(images, Shown(SetOf(images), true));
    }
  }

  lemma DigestsListed(all: seq<RSPImage>)
    ensures DigestsOf(all) == set i | i in SetOf(all) :: i.digest
  {
  }

  /** One image for each of some digests, each the one in front of its digest. */
  ghost predicate OneOfEach(list: seq<RSPImage>, digests: set<string>, byDigest: map<string, RSPImage>) {
    && DigestsOf(list) == digests
    && (forall i | i in list :: i.digest in byDigest && byDigest[i.digest] == i)
    && (forall a, b | 0 <= a < b < |list| :: list[a].digest != list[b].digest)
  }

  lemma FrontsListed(list: seq<RSPImage>, left: map<string, RSPImage>, byDigest: map<string, RSPImage>, now: map<RSPImage, Saved>)
    requires DistinctTags(list) && SetOf(list) == left.Values * GenericIn(now) && forall d | d in left :: left[d].digest == d
    requires left.Keys <= byDigest.Keys && forall d | d in left :: left[d] == byDigest[d]
    ensures OneOfEach(list, FrontsIn(left, now), byDigest)
  {
    hide GenericIn;
    forall i | i in list ensures i.digest in left && left[i.digest] == i && i in GenericIn(now) {
      assert i in SetOf(list);
    }
    forall d | d in FrontsIn(left, now) ensures d in DigestsOf(list) {
      assert left[d] in SetOf(list);
    }
    forall a, b | 0 <= a < b < |list| ensures list[a].digest != list[b].digest {
      assert list[a] in list && list[b] in list;
    }
  }

  method EmptyCollection(ghost reg: Registry) returns (none: RSPImageCollection)
    ensures fresh(none) && none.Star(reg) && none.members == {}
  {
    hide *;
    NoneOk({}, reg);
    NothingClashes();
    OfAnyCycle([]);
    ghost var after;
    var made;
    made, after := RSPImageCollection.Make([], None, {}, reg);
    none := made.value;
    NothingResolved(reg, none.byDigest);
  }

  lemma NothingClashes()
    ensures !Clashes([], Snapshot({})) && SetOf([]) == {}
  {
  }

  /** `ImageService`, with the images of its image source. */
  class ImageService {
    var toPrepull: RSPImageCollection
    var source: RSPImageCollection
    var nodes: map<string, RSPImageCollection>

    /** Before the first refresh there is nothing to prepull and no node is known. */
    constructor (images: RSPImageCollection, ghost universe: set<RSPImage>, ghost reg: Registry)
      requires images.Star(reg) && images.members <= universe && AllOk(universe, reg)
      ensures Valid(universe, reg) && Unobstructed(universe) && source == images && nodes == map[] && toPrepull.members == {}
    {
      hide AllOk, AllStars, RSPImageCollection.Star;
      NoneOk(universe, reg);
      var none := EmptyCollection(reg);
      toPrepull, source, nodes := none, images, map[];
      new;
      MoreStars({}, toPrepull, universe, reg);
      assert {} + {toPrepull} == {toPrepull};
      MoreStars({toPrepull}, source, universe, reg);
      assert Collections() == {toPrepull} + {source};
    }

    ghost function Collections(): set<RSPImageCollection>
      reads this
    {
      nodes.Values + {toPrepull, source}
    }

    /** Every node has a collection of its own; the images in the collections are shared. */
    ghost predicate Separate()
      reads this
    {
      && (forall m, n | m in nodes && n in nodes && m != n :: nodes[m] != nodes[n])
      && (forall n | n in nodes :: nodes[n] != toPrepull && nodes[n] != source)
    }

    ghost predicate Valid(universe: set<RSPImage>, reg: Registry)
      reads this, Collections(), universe`imageType, universe`cycle, universe`architecture,
            universe`date, universe`aliases, universe`aliasTarget
    {
      AllStars(Collections(), universe, reg) && AllOk(universe, reg) && Separate()
    }

    /** The digests to prepull that a node does not have, as far as images for one architecture do not count. */
    ghost function Missing(name: string, universe: set<RSPImage>): set<string>
      requires name in nodes
      reads this, Collections(), universe`imageType, universe`cycle, universe`architecture,
            universe`date, universe`aliases, universe`aliasTarget
    {
      FrontsIn(toPrepull.byDigest, Snapshot(universe)) - DigestsIn(nodes[name].members, Snapshot(universe))
    }

    /**
     No image for one architecture takes up a digest that its node is missing. That is so after
     every refresh, and always as long as no image is for one architecture.
     */
    ghost predicate Unobstructed(universe: set<RSPImage>)
      reads this, Collections(), universe`imageType, universe`cycle, universe`architecture,
            universe`date, universe`aliases, universe`aliasTarget
    {
      forall n | n in nodes :: forall i | i in nodes[n].members :: i.digest !in Missing(n, universe)
    }

    /** What every node is missing. */
    ghost function AllMissing(universe: set<RSPImage>): map<string, set<string>>
      reads this, Collections(), universe`imageType, universe`cycle, universe`architecture,
            universe`date, universe`aliases, universe`aliasTarget
    {
      map n | n in nodes :: Missing(n, universe)
    }

    /** `_to_prepull.subtract(node.images)` */
    method ToPull(name: string, ghost universe: set<RSPImage>, ghost reg: Registry)
      returns (toPull: RSPImageCollection)
      requires Valid(universe, reg) && name in nodes
      modifies universe`aliases, universe`imageType, universe`aliasTarget, universe`cycle, universe`architecture, universe`date
      ensures Valid(universe, reg) && Snapshot(universe) == old(Snapshot(universe))
      ensures fresh(toPull) && toPull.Star(reg) && toPull.members == toPull.byDigest.Values <= universe
      ensures toPull.byDigest == toPrepull.byDigest - DigestsIn(nodes[name].members, Snapshot(universe))
      ensures ListedOnce(toPull.byType) && TagsApart(toPull.members)
    {
      hide *;
      ghost var before, cs := Snapshot(universe), nodes.Values + {toPrepull, source};
      CollectionsAre(this);
      ValidParts(this, universe, reg);
      SnapshotPlain(universe);
      StarsStand(cs, universe, reg);
      OneStar(cs, toPrepull, universe, reg);
      OneStar(cs, nodes[name], universe, reg);
      GenericOf(nodes[name], universe, reg);
      MembersFound(toPrepull, reg);
      toPull := toPrepull.Subtract(nodes[name], universe, reg);
      SameStates(before);
      StillStars(cs, before, reg);
      CollectionsAre(this);
      ValidFrom(this, universe, reg);
      FrontsKnown(toPull, toPrepull);
    }

    /** The images one node is missing. */
    method MissingImages(name: string, ghost universe: set<RSPImage>, ghost reg: Registry)
      returns (images: seq<RSPImage>)
      requires Valid(universe, reg) && name in nodes
      modifies universe`aliases, universe`imageType, universe`aliasTarget, universe`cycle, universe`architecture, universe`date
      ensures Valid(universe, reg) && Snapshot(universe) == old(Snapshot(universe))
      ensures OneOfEach(images, Missing(name, universe), toPrepull.byDigest)
    {
      hide *;
      var toPull := ToPull(name, universe, reg);
      ghost var cs := nodes.Values + {toPrepull, source};
      CollectionsAre(this);
      ValidParts(this, universe, reg);
      GenericOf(toPull, universe, reg);
      MembersFound(toPull, reg);
      images := toPull.ImagesShown(true);
      FrontsListed(images, toPull.byDigest, toPrepull.byDigest, Snapshot(universe));
      FewerFronts(toPrepull.byDigest, DigestsIn(nodes[name].members, Snapshot(universe)), Snapshot(universe));
      MissingIs(this, name, universe);
      CollectionsAre(this);
      ValidFrom(this, universe, reg);
    }

    /** `missing_images_by_node`: exactly the nodes that miss something, each with exactly what it misses. */
    method MissingImagesByNode(ghost universe: set<RSPImage>, ghost reg: Registry)
      returns (missing: map<string, seq<RSPImage>>)
      requires Valid(universe, reg)
      modifies universe`aliases, universe`imageType, universe`aliasTarget, universe`cycle, universe`architecture, universe`date
      ensures Valid(universe, reg) && Snapshot(universe) == old(Snapshot(universe))
      ensures forall n :: n in missing <==> n in nodes && Missing(n, universe) != {}
      ensures forall n | n in missing :: OneOfEach(missing[n], Missing(n, universe), toPrepull.byDigest)
    {
      hide *;
      missing := map[];
      var todo := nodes.Keys;
      while todo != {}
        invariant Valid(universe, reg) && Snapshot(universe) == old(Snapshot(universe))
        invariant todo <= nodes.Keys && missing.Keys <= nodes.Keys - todo
        invariant forall n | n in nodes.Keys - todo :: n in missing <==> Missing(n, universe) != {}
        invariant forall n | n in missing :: OneOfEach(missing[n], Missing(n, universe), toPrepull.byDigest)
        decreases todo
      {
        var name :| name in todo;
        todo := todo - {name};
        MissingAre(this, universe);
        var images := MissingImages(name, universe, reg);
        MissingAre(this, universe);
        NoneListed(images, Missing(name, universe), toPrepull.byDigest);
        if images != [] {
          missing := missing[name := images];
        }
      }
    }

    /** Whether `mark_prepulled` fails: it adds the image to a node, and that fails. */
    ghost predicate MarkFails(image: RSPImage, name: string, universe: set<RSPImage>)
      requires name in nodes
      reads this, Collections(), image`imageType, Everything(nodes[name].byType)`architecture, nodes[name].byDigest.Values`aliases
      reads universe`imageType, universe`cycle, universe`architecture, universe`date, universe`aliases, universe`aliasTarget
    {
      image.digest in toPrepull.byDigest && nodes[name].AddFails(image, universe)
    }

    /**
     `mark_prepulled`: if the digest is to be prepulled, the image is now in the collection of
     this node, and the images of its digest are recorded to be on it; no other node and no
     other digest is touched. It fails exactly if adding the image to the node does; then the
     images are recorded, every other collection keeps its star, and the node's is not to be
     used.
     */
    method MarkPrepulled(image: RSPImage, name: string, ghost universe: set<RSPImage>, ghost reg: Registry)
      returns (r: Result<(), ImageError>, ghost after: Registry)
      requires Valid(universe, reg) && image in universe
      modifies universe, Named(name)
      ensures if name in nodes && old(MarkFails(image, name, universe)) then r == Err(SetChangedDuringIteration) else r.Ok?
      ensures AllStars(Collections() - Named(name), universe, after) && AllOk(universe, after) && OnlyGrown(old(Snapshot(universe)))
      ensures r.Ok? ==> Valid(universe, after)
      ensures r.Ok? && name in nodes && image.digest in toPrepull.byDigest ==>
                && nodes[name].members ==
                     old(if nodes[name].IsAwaited(image) then nodes[name].GenericMembers() else nodes[name].members) + {image}
                && image.digest in nodes[name].byDigest && image.tag in nodes[name].byTag && nodes[name].byTag[image.tag] == image
                && (!old(nodes[name].IsAwaited(image)) ==>
                      after == old(nodes[name].Joined(image, reg)) && nodes[name].byTag == old(nodes[name].byTag)[image.tag := image])
      ensures image.digest !in toPrepull.byDigest ==>
                r.Ok? && after == reg && forall n | n in nodes :: nodes[n].byTag == old(nodes[n].byTag)
      ensures name in nodes && image.digest !in old(nodes[name].byDigest) ==>
                && r.Ok? && after == reg && Snapshot(universe) == old(Snapshot(universe))
                && (image.digest in toPrepull.byDigest ==> nodes[name].members == old(nodes[name].members) + {image})
      ensures forall n | n in nodes && n != name :: nodes[n].byTag == old(nodes[n].byTag) && nodes[n].byDigest == old(nodes[n].byDigest)
      ensures source.byTag == old(source.byTag) && toPrepull.byDigest == old(toPrepull.byDigest)
      ensures forall i | i in old(source.members) ::
                i.nodes == old(i.nodes) + if old(source.Reached(i, image.digest)) && image.digest in toPrepull.byDigest then {name} else {}
      ensures old(TagsApart(source.members)) ==>
                old(forall i | i in source.members :: source.Reached(i, image.digest) <==> i.digest == image.digest)
      ensures toPrepull.members <= source.members && old(TagsApart(source.members)) ==>
                forall i | i in toPrepull.members && i.digest == image.digest && image.digest in toPrepull.byDigest :: name in i.nodes
    {
      hide *;
      AreApart(this, universe, reg);
      ValidFewer(this, name, universe, reg);
      NamedIs(this, name);
      MarkMayFail(this, image, name, universe);
      SourceReached(this, image.digest, universe, reg);
      ghost var before := Snapshot(universe);
      SnapshotPlain(universe);
      GrownAre(before, universe);
      r, after := Ok(()), reg;
      if image.digest in toPrepull.byDigest {
        MarkSource(image, name, universe, reg);
        GrownAre(before, universe);
        if name in nodes {
          r, after := AddToNode(image, name, universe, reg);
        }
        ValidFewer(this, name, universe, after);
      }
    }

    /** `mark_prepulled` of the image source. */
    method MarkSource(image: RSPImage, name: string, ghost universe: set<RSPImage>, ghost reg: Registry)
      requires Valid(universe, reg)
      modifies universe`nodes, universe`size
      ensures Valid(universe, reg) && Snapshot(universe) == old(Snapshot(universe))
      ensures forall i | i in source.members :: i.nodes == old(i.nodes) + if source.Reached(i, image.digest) then {name} else {}
      ensures name in nodes ==>
                && nodes[name].AddFails(image, universe) == old(nodes[name].AddFails(image, universe))
                && nodes[name].GenericMembers() == old(nodes[name].GenericMembers())
    {
      hide AllStars, AllOk, IndexOk, FrontsAt, FoundAt, Separate, Listing, Visible, Clash, Clashes, TagsApart, RSPImageCollection.Reached;
      OneStar(Collections(), source, universe, reg);
      source.MarkImageSeenOnNode(image.digest, name, None, reg);
      if name in nodes {
        ghost var all := Everything(nodes[name].byType);
        assert Visible(all, true) == old(Visible(all, true));
        assert Snapshot(universe) == old(Snapshot(universe));
      }
    }

    /** The collection of one node, if the node is known. */
    ghost function Named(name: string): set<RSPImageCollection>
      reads this
    {
      if name in nodes then {nodes[name]} else {}
    }

    /** `_nodes[node].images.add(image)` */
    method AddToNode(image: RSPImage, name: string, ghost universe: set<RSPImage>, ghost reg: Registry)
      returns (r: Result<(), ImageError>, ghost after: Registry)
      requires Valid(universe, reg) && image in universe && name in nodes
      modifies nodes[name]
      modifies universe`aliases, universe`imageType, universe`aliasTarget, universe`cycle, universe`architecture, universe`date
      ensures if old(nodes[name].AddFails(image, universe)) then r == Err(SetChangedDuringIteration) else r.Ok?
      ensures AllStars(Collections() - {nodes[name]}, universe, after) && AllOk(universe, after) && OnlyGrown(old(Snapshot(universe)))
      ensures r.Ok? ==>
                && Valid(universe, after) && image.digest in nodes[name].byDigest
                && image.tag in nodes[name].byTag && nodes[name].byTag[image.tag] == image
      ensures r.Ok? && !old(nodes[name].IsAwaited(image)) ==>
                after == old(nodes[name].Joined(image, reg)) && nodes[name].byTag == old(nodes[name].byTag)[image.tag := image]
      ensures r.Ok? ==>
                nodes[name].members ==
                old(if nodes[name].IsAwaited(image) then nodes[name].GenericMembers() else nodes[name].members) + {image}
      ensures image.digest !in old(nodes[name].byDigest) ==>
                && r.Ok? && after == reg && Snapshot(universe) == old(Snapshot(universe))
                && nodes[name].members == old(nodes[name].members) + {image}
    {
      hide *;
      ghost var node, others := nodes[name], Collections() - {nodes[name]};
      ValidParts(this, universe, reg);
      OneStar(Collections(), nodes[name], universe, reg);
      FewerStars(Collections(), {nodes[name]}, universe, reg);
      r, after := AddApart(nodes[name], image, others, universe, reg);
      MoreStars(others, nodes[name], universe, after);
      ValidAgain(this, others, node, universe, after);
    }

    /**
     `_prepull_images_for_node`, whether or not a pull succeeds: the node is no longer missing
     the images it was given, and no other node's list changes.
     */
    method PrepullImagesForNode(name: string, images: seq<RSPImage>, ghost universe: set<RSPImage>, ghost reg: Registry)
      requires Valid(universe, reg) && Unobstructed(universe) && name in nodes
      requires OneOfEach(images, DigestsOf(images), toPrepull.byDigest) && DigestsOf(images) <= Missing(name, universe)
      modifies universe, nodes[name]
      ensures Valid(universe, reg) && Unobstructed(universe) && Snapshot(universe) == old(Snapshot(universe))
      ensures AllMissing(universe) == old(AllMissing(universe))[name := old(Missing(name, universe)) - DigestsOf(images)]
    {
      hide *;
      ghost var was, now := AllMissing(universe), Snapshot(universe);
      AreApart(this, universe, reg);
      MissingAre(this, universe);
      NoneOfEach();
      assert images[..0] == [];
      assert was[name] - {} == was[name] && was[name := was[name]] == was;
      for k := 0 to |images|
        invariant Valid(universe, reg) && Unobstructed(universe) && Snapshot(universe) == now
        invariant AllMissing(universe) == was[name := was[name] - DigestsOf(images[..k])]
      {
        NextDigest(images, k, toPrepull.byDigest);
        MissingAre(this, universe);
        PrepullOne(images[k], name, universe, reg);
        assert was[name] - DigestsOf(images[..k]) - {images[k].digest} == was[name] - DigestsOf(images[..k + 1]);
      }
      assert images[..|images|] == images;
    }

    /** One image that a node is missing is marked. */
    method PrepullOne(image: RSPImage, name: string, ghost universe: set<RSPImage>, ghost reg: Registry)
      requires Valid(universe, reg) && Unobstructed(universe) && name in nodes
      requires image.digest in Missing(name, universe) && image.digest in toPrepull.byDigest && toPrepull.byDigest[image.digest] == image
      modifies universe, nodes[name]
      ensures Valid(universe, reg) && Unobstructed(universe) && Snapshot(universe) == old(Snapshot(universe))
      ensures AllMissing(universe) == old(AllMissing(universe))[name := old(Missing(name, universe)) - {image.digest}]
    {
      hide *;
      ghost var was, members := AllMissing(universe), nodes[name].members;
      AreApart(this, universe, reg);
      MissingAre(this, universe);
      NamedIs(this, name);
      UnobstructedMeans(this, universe);
      NotHere(this, name, image, universe, reg);
      ghost var after;
      var r;
      r, after := MarkPrepulled(image, name, universe, reg);
      MissesOneLess(this, name, image, members, was, universe);
      UnobstructedFrom(this, universe);
    }

    /** The next image of one node's task, given all that the node is still missing. */
    method PrepullNext(name: string, images: seq<RSPImage>, ghost universe: set<RSPImage>, ghost reg: Registry)
      requires Valid(universe, reg) && Unobstructed(universe) && name in nodes
      requires images != [] && OneOfEach(images, Missing(name, universe), toPrepull.byDigest)
      modifies universe, nodes[name]
      ensures Valid(universe, reg) && Unobstructed(universe) && Snapshot(universe) == old(Snapshot(universe))
      ensures AllMissing(universe) == old(AllMissing(universe))[name := DigestsOf(images[1..])]
      ensures OneOfEach(images[1..], DigestsOf(images[1..]), toPrepull.byDigest)
    {
      hide *;
      AreApart(this, universe, reg);
      ListedDigests(images, Missing(name, universe), toPrepull.byDigest);
      FirstOfEach(images, toPrepull.byDigest);
      PrepullOne(images[0], name, universe, reg);
    }

    /**
     The tasks of all nodes. Each of them goes through its own list in order, and between any
     two images of one task the others get on with theirs as far as they like: which task
     takes the next step is arbitrary. Whatever the order, no node misses anything in the end.
     */
    method PrepullAll(missing: map<string, seq<RSPImage>>, ghost universe: set<RSPImage>, ghost reg: Registry)
      requires Valid(universe, reg) && Unobstructed(universe) && missing.Keys <= nodes.Keys
      requires AllListed(missing, AllMissing(universe), toPrepull.byDigest)
      modifies universe, nodes.Values
      ensures Valid(universe, reg) && Unobstructed(universe) && Snapshot(universe) == old(Snapshot(universe))
      ensures AllMissing(universe) == Emptied(old(AllMissing(universe)), missing.Keys)
    {
      hide *;
      AreApart(this, universe, reg);
      ghost var before, now, fronts := AllMissing(universe), Snapshot(universe), toPrepull.byDigest;
      var rest := missing;
      var running := set n | n in missing && missing[n] != [];
      AllStillMissing(missing, before, fronts);
      while running != {}
        invariant Valid(universe, reg) && Unobstructed(universe) && Snapshot(universe) == now
        invariant rest.Keys == missing.Keys && running <= rest.Keys
        invariant forall n | n in rest :: n in running <==> rest[n] != []
        invariant toPrepull.byDigest == fronts
        invariant StillMissing(rest, before, AllMissing(universe), fronts)
        decreases Left(rest)
      {
        var name :| name in running;
        MissingAre(this, universe);
        NextListed(rest, before, AllMissing(universe), name, fronts);
        PrepullNext(name, rest[name], universe, reg);
        rest := rest[name := rest[name][1..]];
        running := if rest[name] == [] then running - {name} else running;
      }
      AllEmptied(rest, before, AllMissing(universe), fronts);
    }

    /** `prepull_images`: afterwards no node misses anything. */
    method PrepullImages(ghost universe: set<RSPImage>, ghost reg: Registry)
      requires Valid(universe, reg) && Unobstructed(universe)
      modifies universe, nodes.Values
      ensures Valid(universe, reg) && Unobstructed(universe) && Snapshot(universe) == old(Snapshot(universe))
      ensures forall n | n in nodes :: Missing(n, universe) == {}
    {
      hide *;
      UnobstructedMeans(this, universe);
      MissingAre(this, universe);
      var missing := MissingImagesByNode(universe, reg);
      MissingAre(this, universe);
      UnobstructedFrom(this, universe);
      NowListed(missing, AllMissing(universe), toPrepull.byDigest);
      ghost var was := AllMissing(universe);
      PrepullAll(missing, universe, reg);
      MissingAre(this, universe);
      EmptiedAre(was, missing.Keys);
    }

    /**
     `refresh`, given what the image source found: a node then has exactly the digests to
     prepull that it has cached, and misses the others, as far as images for one architecture
     do not count. An image in front of a digest that some node has cached twice becomes its
     own alias, and no others do.
     */
    method Refresh(images: RSPImageCollection, prepull: RSPImageCollection, names: set<string>, cache: map<string, seq<Option<string>>>,
                   ghost universe: set<RSPImage>, ghost reg: Registry)
      returns (ghost after: Registry)
      requires images.Star(reg) && prepull.Star(reg) && images.members + prepull.members <= universe
      requires AllOk(universe, reg)
      modifies this
      modifies universe`aliases, universe`imageType, universe`aliasTarget, universe`cycle, universe`architecture, universe`date
      ensures Valid(universe, after) && Unobstructed(universe) && source == images && toPrepull == prepull && nodes.Keys == names
      ensures after == reg.(own := reg.own + CachedTwice(prepull.byDigest, cache, names))
      ensures Built(nodes, prepull, cache) && OnlyGrown(old(Snapshot(universe)))
      ensures forall n | n in nodes :: Missing(n, universe) == FrontsIn(prepull.byDigest, Snapshot(universe)) - CachedOn(cache, n)
    {
      hide *;
      NoneOk(universe, reg);
      MoreStars({}, images, universe, reg);
      MoreStars({images}, prepull, universe, reg);
      assert {} + {images} == {images};
      source := images;
      var built;
      built, after := BuildNodes(prepull, {images}, names, cache, universe, reg);
      nodes, toPrepull := built, prepull;
      CollectionsAre(this);
      assert Collections() == {images} + {prepull} + built.Values;
      BuiltSeparate(this, cache, universe, after);
      ValidFrom(this, universe, after);
    }
  }

  /**
   Tasks that still work through lists from before a refresh may mark image objects from then
   on nodes that the refresh built anew. However many they have marked, if no mark fails and no
   image is for one architecture, prepulling leaves no node with anything missing.
   */
  method PrepullAfterMarks(s: ImageService, marks: seq<(RSPImage, string)>, ghost universe: set<RSPImage>, ghost reg: Registry)
    returns (r: Result<(), ImageError>, ghost after: Registry)
    requires s.Valid(universe, reg) && NoArchitectures(universe)
    requires forall k | 0 <= k < |marks| :: marks[k].0 in universe
    modifies universe, s.nodes.Values
    ensures NoArchitectures(universe)
    ensures r.Ok? ==> s.Valid(universe, after) && forall n | n in s.nodes :: s.Missing(n, universe) == {}
  {
    hide *;
    AreApart(s, universe, reg);
    r, after := Ok(()), reg;
    for k := 0 to |marks|
      invariant r.Ok? && s.Valid(universe, after) && NoArchitectures(universe)
    {
      NamedIs(s, marks[k].1);
      ghost var was := Snapshot(universe);
      SnapshotPlain(universe);
      r, after := s.MarkPrepulled(marks[k].0, marks[k].1, universe, after);
      StillGeneric(was);
      if r.Err? {
        return;
      }
    }
    GenericUnobstructed(s, universe, after);
    SnapshotPlain(universe);
    s.PrepullImages(universe, after);
    SnapshotPlain(universe);
  }

  ghost predicate AllListed(missing: map<string, seq<RSPImage>>, digests: map<string, set<string>>, byDigest: map<string, RSPImage>) {
    forall n | n in missing :: n in digests && OneOfEach(missing[n], digests[n], byDigest)
  }

  ghost function Emptied(digests: map<string, set<string>>, names: set<string>): map<string, set<string>> {
    map n | n in digests :: if n in names then {} else digests[n]
  }

  /** The images that the tasks have yet to prepull, by node and digest. */
  ghost function Left(rest: map<string, seq<RSPImage>>): set<(string, string)> {
    set n, i | n in rest && i in rest[n] :: (n, i.digest)
  }

  /** What is left of each list is what that node is missing; the other nodes miss what they did. */
  ghost predicate StillMissing(rest: map<string, seq<RSPImage>>, before: map<string, set<string>>, now: map<string, set<string>>,
                              byDigest: map<string, RSPImage>)
  {
    && now.Keys == before.Keys && AllListed(rest, now, byDigest)
    && forall n | n in now && n !in rest :: now[n] == before[n]
  }

  lemma AllStillMissing(missing: map<string, seq<RSPImage>>, digests: map<string, set<string>>, byDigest: map<string, RSPImage>)
    requires AllListed(missing, digests, byDigest)
    ensures StillMissing(missing, digests, digests, byDigest)
  {
  }

  lemma FirstOfEach(images: seq<RSPImage>, byDigest: map<string, RSPImage>)
    requires images != [] && OneOfEach(images, DigestsOf(images), byDigest)
    ensures OneOfEach(images[1..], DigestsOf(images[1..]), byDigest)
    ensures DigestsOf(images[1..]) == DigestsOf(images) - {images[0].digest}
    ensures images[0].digest in DigestsOf(images) && images[0].digest in byDigest
  {
    assert images == [images[0]] + images[1..];
    assert images[0] in images;
    forall i | i in images[1..] ensures i in images && i.digest != images[0].digest {
      var k :| 0 <= k < |images[1..]| && images[1..][k] == i;
      assert images[k + 1] == i;
    }
  }

  /** One more image of one node's list is done. */
  lemma NextListed(rest: map<string, seq<RSPImage>>, before: map<string, set<string>>, now: map<string, set<string>>, name: string,
                   byDigest: map<string, RSPImage>)
    requires StillMissing(rest, before, now, byDigest) && name in rest && rest[name] != []
    ensures name in now && OneOfEach(rest[name], now[name], byDigest) && DigestsOf(rest[name]) == now[name]
    ensures var done := rest[name := rest[name][1..]];
            && StillMissing(done, before, now[name := DigestsOf(rest[name][1..])], byDigest)
            && Left(done) < Left(rest)
  {
    var images, done := rest[name], rest[name := rest[name][1..]];
    FirstOfEach(images, byDigest);
    assert (name, images[0].digest) in Left(rest) && (name, images[0].digest) !in Left(done) by {
      assert images[0] in rest[name];
      assert images[0].digest !in DigestsOf(images[1..]);
    }
    forall p | p in Left(done) ensures p in Left(rest) {
      var n: string, i: RSPImage :| n in done && i in done[n] && p == (n, i.digest);
      assert i in rest[n];
    }
  }

  lemma AllEmptied(rest: map<string, seq<RSPImage>>, before: map<string, set<string>>, now: map<string, set<string>>,
                   byDigest: map<string, RSPImage>)
    requires StillMissing(rest, before, now, byDigest) && forall n | n in rest :: rest[n] == []
    ensures now == Emptied(before, rest.Keys)
  {
    forall n | n in rest ensures now[n] == {} {
      NoneListed(rest[n], now[n], byDigest);
    }
  }

  lemma ValidParts(s: ImageService, universe: set<RSPImage>, reg: Registry)
    requires s.Valid(universe, reg)
    ensures AllStars(s.Collections(), universe, reg) && AllOk(universe, reg)
    ensures s.Separate()
    ensures s.toPrepull in s.Collections() && s.source in s.Collections() && forall n | n in s.nodes :: s.nodes[n] in s.Collections()
  {
  }

  lemma ValidFrom(s: ImageService, universe: set<RSPImage>, reg: Registry)
    requires AllStars(s.Collections(), universe, reg) && AllOk(universe, reg)
    requires s.Separate()
    ensures s.Valid(universe, reg)
  {
  }

  lemma ValidFewer(s: ImageService, name: string, universe: set<RSPImage>, reg: Registry)
    ensures s.Valid(universe, reg) ==>
              AllStars(s.Collections() - s.Named(name), universe, reg) && AllOk(universe, reg)
  {
  }

  lemma NamedIs(s: ImageService, name: string)
    ensures s.Named(name) == if name in s.nodes then {s.nodes[name]} else {}
  {
  }

  lemma MarkMayFail(s: ImageService, image: RSPImage, name: string, universe: set<RSPImage>)
    ensures name in s.nodes ==>
              (s.MarkFails(image, name, universe) <==> image.digest in s.toPrepull.byDigest && s.nodes[name].AddFails(image, universe))
  {
  }

  /** A collection of the service has changed, and the others have kept their stars. */
  lemma ValidAgain(s: ImageService, others: set<RSPImageCollection>, c: RSPImageCollection, universe: set<RSPImage>, reg: Registry)
    requires AllOk(universe, reg) && s.Separate() && s.Collections() == others + {c}
    ensures AllStars(others + {c}, universe, reg) ==> s.Valid(universe, reg)
  {
  }

  lemma MissingIs(s: ImageService, name: string, universe: set<RSPImage>)
    requires name in s.nodes
    ensures s.Missing(name, universe) ==
            FrontsIn(s.toPrepull.byDigest, Snapshot(universe)) - DigestsIn(s.nodes[name].members, Snapshot(universe))
  {
  }

  /** What a node is missing: digests to prepull in front of which is a generic image, and of which the node has none. */
  lemma MissingTells(s: ImageService, universe: set<RSPImage>, reg: Registry)
    requires s.Valid(universe, reg)
    ensures forall n, d | n in s.nodes ::
              d in s.Missing(n, universe) <==>
                && d in s.toPrepull.byDigest && s.toPrepull.byDigest[d].architecture.GetOr("") == ""
                && forall i | i in s.nodes[n].members && i.digest == d :: i.architecture.GetOr("") != ""
  {
    hide RSPImageCollection.Star, AllOk;
    SnapshotPlain(universe);
    OneStar(s.Collections(), s.toPrepull, universe, reg);
    MembersFound(s.toPrepull, reg);
    forall n, d | n in s.nodes
      ensures d in s.Missing(n, universe) <==>
                && d in s.toPrepull.byDigest && s.toPrepull.byDigest[d].architecture.GetOr("") == ""
                && forall i | i in s.nodes[n].members && i.digest == d :: i.architecture.GetOr("") != ""
    {
      OneStar(s.Collections(), s.nodes[n], universe, reg);
      assert forall i | i in universe :: Snapshot(universe)[i].architecture == i.architecture;
    }
  }

  lemma MissingAre(s: ImageService, universe: set<RSPImage>)
    ensures s.AllMissing(universe).Keys == s.nodes.Keys
    ensures forall n | n in s.nodes ::
              s.AllMissing(universe)[n] == s.Missing(n, universe)
              == FrontsIn(s.toPrepull.byDigest, Snapshot(universe)) - DigestsIn(s.nodes[n].members, Snapshot(universe))
  {
  }

  lemma FewerFronts(byDigest: map<string, RSPImage>, digests: set<string>, now: map<RSPImage, Saved>)
    ensures FrontsIn(byDigest - digests, now) == FrontsIn(byDigest, now) - digests
  {
  }

  lemma UnobstructedMeans(s: ImageService, universe: set<RSPImage>)
    requires s.Unobstructed(universe)
    ensures forall n | n in s.nodes :: forall i | i in s.nodes[n].members :: i.digest !in s.AllMissing(universe)[n]
  {
  }

  lemma UnobstructedFrom(s: ImageService, universe: set<RSPImage>)
    requires forall n | n in s.nodes :: forall i | i in s.nodes[n].members :: i.digest !in s.AllMissing(universe)[n]
    ensures s.Unobstructed(universe)
  {
  }

  /** As long as no image is for one architecture, whatever the service has been through. */
  lemma GenericUnobstructed(s: ImageService, universe: set<RSPImage>, reg: Registry)
    requires s.Valid(universe, reg) && NoArchitectures(universe)
    ensures s.Unobstructed(universe)
  {
    hide RSPImageCollection.Star, AllOk;
    SnapshotPlain(universe);
    forall n, i | n in s.nodes && i in s.nodes[n].members ensures i.digest !in s.Missing(n, universe) {
      OneStar(s.Collections(), s.nodes[n], universe, reg);
      assert Snapshot(universe)[i] == i.State();
    }
  }

  /** One more image on a node, and what the node no longer misses. */
  lemma OneLess(members: set<RSPImage>, image: RSPImage, now: map<RSPImage, Saved>)
    ensures image in GenericIn(now) ==> DigestsIn(members + {image}, now) == DigestsIn(members, now) + {image.digest}
  {
    hide GenericIn;
  }

  lemma MissesOneLess(s: ImageService, name: string, image: RSPImage, members: set<RSPImage>, was: map<string, set<string>>,
                      universe: set<RSPImage>)
    requires name in s.nodes && was.Keys == s.nodes.Keys && image in GenericIn(Snapshot(universe))
    requires s.nodes[name].members == members + {image}
    requires forall n | n in s.nodes ::
               was[n] == FrontsIn(s.toPrepull.byDigest, Snapshot(universe))
                         - DigestsIn(if n == name then members else s.nodes[n].members, Snapshot(universe))
    ensures s.AllMissing(universe) == was[name := was[name] - {image.digest}]
  {
    hide GenericIn, FrontsIn, DigestsIn, Snapshot;
    MissingAre(s, universe);
    OneLess(members, image, Snapshot(universe));
    var fronts, here := FrontsIn(s.toPrepull.byDigest, Snapshot(universe)), DigestsIn(members, Snapshot(universe));
    assert fronts - (here + {image.digest}) == fronts - here - {image.digest};
    forall n | n in s.nodes ensures s.AllMissing(universe)[n] == was[name := was[name] - {image.digest}][n] {
      assert was[n] == fronts - DigestsIn(if n == name then members else s.nodes[n].members, Snapshot(universe));
    }
  }

  lemma ListedDigests(images: seq<RSPImage>, digests: set<string>, byDigest: map<string, RSPImage>)
    requires OneOfEach(images, digests, byDigest)
    ensures DigestsOf(images) == digests && forall i | i in images :: i.digest in digests && i.digest in byDigest && byDigest[i.digest] == i
  {
  }

  lemma NowListed(missing: map<string, seq<RSPImage>>, digests: map<string, set<string>>, byDigest: map<string, RSPImage>)
    requires forall n | n in missing :: n in digests && OneOfEach(missing[n], digests[n], byDigest)
    ensures AllListed(missing, digests, byDigest)
  {
  }

  lemma EmptiedAre(digests: map<string, set<string>>, names: set<string>)
    requires forall n | n in digests && n !in names :: digests[n] == {}
    ensures Emptied(digests, names).Keys == digests.Keys && forall n | n in digests :: Emptied(digests, names)[n] == {}
  {
  }

  lemma FrontsKnown(fewer: RSPImageCollection, c: RSPImageCollection)
    requires fewer.byDigest.Keys <= c.byDigest.Keys && forall d | d in fewer.byDigest :: fewer.byDigest[d] == c.byDigest[d]
    requires c.byDigest.Values <= c.members
    ensures fewer.byDigest.Values <= c.members
  {
  }

  lemma AreApart(s: ImageService, universe: set<RSPImage>, reg: Registry)
    requires s.Valid(universe, reg)
    ensures s.toPrepull !in s.nodes.Values && s.source !in s.nodes.Values
    ensures forall m, n | m in s.nodes && n in s.nodes && m != n :: s.nodes[m] != s.nodes[n]
  {
  }

  lemma NoneOfEach()
    ensures DigestsOf([]) == {}
  {
  }

  lemma NextDigest(images: seq<RSPImage>, k: nat, byDigest: map<string, RSPImage>)
    requires k < |images| && OneOfEach(images, DigestsOf(images), byDigest)
    ensures DigestsOf(images[..k + 1]) == DigestsOf(images[..k]) + {images[k].digest}
    ensures images[k].digest !in DigestsOf(images[..k]) && images[k].digest in DigestsOf(images) && images[k].digest in byDigest
    ensures byDigest[images[k].digest] == images[k]
  {
    assert images[..k + 1] == images[..k] + [images[k]];
    assert images[k] in images;
  }

  /** No image of the digest of an image that is missing on a node is in the node's collection. */
  lemma NotHere(s: ImageService, name: string, image: RSPImage, universe: set<RSPImage>, reg: Registry)
    requires s.Valid(universe, reg) && s.Unobstructed(universe) && name in s.nodes && image.digest in s.Missing(name, universe)
    requires image.digest in s.toPrepull.byDigest && s.toPrepull.byDigest[image.digest] == image
    ensures image in universe && image in GenericIn(Snapshot(universe)) && image.digest !in s.nodes[name].byDigest
  {
    hide IndexOk, FrontsAt, FoundAt, AllOk, Snapshot, GenericIn, RSPImageCollection.Star;
    OneStar(s.Collections(), s.nodes[name], universe, reg);
    OneStar(s.Collections(), s.toPrepull, universe, reg);
    MembersFound(s.nodes[name], reg);
    MembersFound(s.toPrepull, reg);
  }

  lemma CollectionsAre(s: ImageService)
    ensures s.Collections() == s.nodes.Values + {s.toPrepull, s.source}
  {
  }

  lemma BuiltSeparate(s: ImageService, cache: map<string, seq<Option<string>>>, universe: set<RSPImage>, reg: Registry)
    requires Built(s.nodes, s.toPrepull, cache) && s.toPrepull !in s.nodes.Values && s.source !in s.nodes.Values
    requires AllStars({s.source} + {s.toPrepull} + s.nodes.Values, universe, reg)
    ensures s.Separate() && s.Unobstructed(universe)
    ensures forall n | n in s.nodes ::
              s.Missing(n, universe) == FrontsIn(s.toPrepull.byDigest, Snapshot(universe)) - CachedOn(cache, n)
  {
    hide RSPImageCollection.Star, Snapshot, CachedOn, GenericIn, Listing, Cached;
    MembersFound(s.toPrepull, reg);
    forall n | n in s.nodes
      ensures s.Missing(n, universe) == FrontsIn(s.toPrepull.byDigest, Snapshot(universe)) - CachedOn(cache, n)
      ensures forall i | i in s.nodes[n].members :: i.digest in CachedOn(cache, n)
    {
      HereMissing(s.toPrepull.byDigest, CachedOn(cache, n), Snapshot(universe));
    }
  }

  /**
   What a service has and misses on its nodes after a refresh: a node has exactly the images
   in front of what it has cached, and misses exactly the digests behind a generic front that
   it has not.
   */
  lemma RefreshTells(s: ImageService, cache: map<string, seq<Option<string>>>, universe: set<RSPImage>, n: string, i: RSPImage)
    requires Built(s.nodes, s.toPrepull, cache) && n in s.nodes && i in universe
    requires s.Missing(n, universe) == FrontsIn(s.toPrepull.byDigest, Snapshot(universe)) - CachedOn(cache, n)
    requires i.digest in s.toPrepull.byDigest && s.toPrepull.byDigest[i.digest] == i
    requires forall d | d in s.toPrepull.byDigest :: s.toPrepull.byDigest[d].digest == d
    ensures i in s.nodes[n].members <==> n in cache && Some(i.digest) in cache[n]
    ensures i.digest in s.Missing(n, universe) <==> i.architecture.GetOr("") == "" && !(n in cache && Some(i.digest) in cache[n])
    ensures multiset(Everything(s.nodes[n].byType))[i] == if n in cache then multiset(cache[n])[Some(i.digest)] else 0
  {
    hide Cached, Listing, DigestSet, CachedOn, OnNode;
    SnapshotPlain(universe);
    CachedTells(cache, n, i.digest);
    HereTells(s.toPrepull.byDigest, CachedOn(cache, n), i);
    CachedCounts(CacheOf(cache, n), s.toPrepull.byDigest, i);
  }

  lemma HereTells(byDigest: map<string, RSPImage>, digests: set<string>, i: RSPImage)
    requires i.digest in byDigest && byDigest[i.digest] == i && forall d | d in byDigest :: byDigest[d].digest == d
    ensures i in OnNode(byDigest, digests).Values <==> i.digest in digests
  {
    if i.digest in digests {
      assert OnNode(byDigest, digests)[i.digest] == i;
    }
  }

  lemma CachedTells(cache: map<string, seq<Option<string>>>, name: string, d: string)
    ensures d in CachedOn(cache, name) <==> name in cache && Some(d) in cache[name]
  {
    InDigestSet(CacheOf(cache, name), d);
  }

  lemma TwiceTells(byDigest: map<string, RSPImage>, cache: map<string, seq<Option<string>>>, names: set<string>)
    requires forall d | d in byDigest :: byDigest[d].digest == d
    ensures forall i :: i in CachedTwice(byDigest, cache, names) <==>
              && i.digest in byDigest && byDigest[i.digest] == i
              && exists n | n in names && n in cache :: multiset(cache[n])[Some(i.digest)] >= 2
  {
  }

  lemma HereMissing(byDigest: map<string, RSPImage>, digests: set<string>, now: map<RSPImage, Saved>)
    requires forall d | d in byDigest :: byDigest[d].digest == d
    ensures var here := OnNode(byDigest, digests);
            here.Values <= byDigest.Values && FrontsIn(byDigest, now) - DigestsIn(here.Values, now) == FrontsIn(byDigest, now) - digests
  {
    hide GenericIn;
    var here := OnNode(byDigest, digests);
    forall d | d in FrontsIn(byDigest, now) ensures d in DigestsIn(here.Values, now) <==> d in digests {
      if d in digests {
        assert here[d] in here.Values;
      }
    }
  }

  /** The digests cached on a node. */
  ghost function CachedOn(cache: map<string, seq<Option<string>>>, name: string): set<string> {
    DigestSet(CacheOf(cache, name))
  }

  /** What is cached on a node, if anything is known of it. */
  function CacheOf(cache: map<string, seq<Option<string>>>, name: string): seq<Option<string>> {
    if name in cache then cache[name] else []
  }

  ghost function DigestSet(digests: seq<Option<string>>): set<string> {
    set k | 0 <= k < |digests| && digests[k].Some? :: digests[k].value
  }

  lemma DigestSetNext(digests: seq<Option<string>>, n: nat)
    requires n < |digests|
    ensures DigestSet(digests[..n + 1]) == DigestSet(digests[..n]) + if digests[n].Some? then {digests[n].value} else {}
  {
    assert digests[..n + 1] == digests[..n] + [digests[n]];
    if digests[n].Some? {
      assert digests[..n + 1][n].value in DigestSet(digests[..n + 1]);
    }
    forall d | d in DigestSet(digests[..n]) ensures d in DigestSet(digests[..n + 1]) {
      var k :| 0 <= k < n && digests[..n][k].Some? && digests[..n][k].value == d;
      assert digests[..n + 1][k].value == d;
    }
  }

  /** The images of interest on one node: for every cached digest, as often as it is cached, the one in front of it. */
  ghost function Cached(digests: seq<Option<string>>, byDigest: map<string, RSPImage>): seq<RSPImage> {
    if digests == [] then []
    else
      var n := |digests| - 1;
      var last := digests[n];
      Cached(digests[..n], byDigest) + if last.Some? && last.value in byDigest then [byDigest[last.value]] else []
  }

  method NodeImages(byDigest: map<string, RSPImage>, digests: seq<Option<string>>) returns (images: seq<RSPImage>)
    ensures images == Cached(digests, byDigest)
  {
    images := [];
    for n := 0 to |digests|
      invariant images == Cached(digests[..n], byDigest)
    {
      assert digests[..n + 1][..n] == digests[..n];
      if digests[n].Some? && digests[n].value in byDigest {
        images := images + [byDigest[digests[n].value]];
      }
    }
    assert digests[..|digests|] == digests;
  }

  lemma NoDigests()
    ensures DigestSet([]) == {}
  {
  }

  /** An image is listed as often as its digest is cached, if it is in front of that digest, and else not at all. */
  lemma {:induction false} CachedCounts(digests: seq<Option<string>>, byDigest: map<string, RSPImage>, i: RSPImage)
    requires forall d | d in byDigest :: byDigest[d].digest == d
    ensures multiset(Cached(digests, byDigest))[i] ==
            if i.digest in byDigest && byDigest[i.digest] == i then multiset(digests)[Some(i.digest)] else 0
    ensures i in Cached(digests, byDigest) <==> i.digest in byDigest && byDigest[i.digest] == i && Some(i.digest) in digests
  {
    if digests != [] {
      var n := |digests| - 1;
      CachedCounts(digests[..n], byDigest, i);
      assert digests == digests[..n] + [digests[n]];
      var last: seq<RSPImage> := if digests[n].Some? && digests[n].value in byDigest then [byDigest[digests[n].value]] else [];
      assert Cached(digests, byDigest) == Cached(digests[..n], byDigest) + last;
      hide Cached;
      assert i in last <==> i.digest in byDigest && byDigest[i.digest] == i && digests[n] == Some(i.digest);
    }
  }

  /** The part of a map that is about some digests. */
  function OnNode(byDigest: map<string, RSPImage>, digests: set<string>): map<string, RSPImage> {
    map d | d in byDigest && d in digests :: byDigest[d]
  }

  lemma CachedAre(digests: seq<Option<string>>, byDigest: map<string, RSPImage>)
    requires forall d | d in byDigest :: byDigest[d].digest == d
    ensures SetOf(Cached(digests, byDigest)) == OnNode(byDigest, DigestSet(digests)).Values
  {
    var images, here := Cached(digests, byDigest), OnNode(byDigest, DigestSet(digests));
    forall i | i in SetOf(images) ensures i in here.Values {
      CachedCounts(digests, byDigest, i);
      InDigestSet(digests, i.digest);
      assert here[i.digest] == i;
    }
    forall d | d in here ensures here[d] in SetOf(images) {
      CachedCounts(digests, byDigest, here[d]);
      InDigestSet(digests, d);
    }
  }

  lemma InDigestSet(digests: seq<Option<string>>, d: string)
    ensures d in DigestSet(digests) <==> Some(d) in digests
  {
    if Some(d) in digests {
      var k :| 0 <= k < |digests| && digests[k] == Some(d);
      assert digests[k].value == d;
    }
  }

  /** The images in front of the digests that a node has cached more than once. */
  ghost function Repeated(byDigest: map<string, RSPImage>, digests: seq<Option<string>>): set<RSPImage> {
    set d | d in byDigest && multiset(digests)[Some(d)] >= 2 :: byDigest[d]
  }

  ghost function CachedTwice(byDigest: map<string, RSPImage>, cache: map<string, seq<Option<string>>>, names: set<string>): set<RSPImage> {
    set n, d | n in names && n in cache && d in byDigest && multiset(cache[n])[Some(d)] >= 2 :: byDigest[d]
  }

  /** Of a node, exactly those are in front and listed twice. */
  lemma TwiceCached(reg: Registry, digests: seq<Option<string>>, byDigest: map<string, RSPImage>)
    requires (forall d | d in byDigest :: byDigest[d].digest == d) && TagsApart(OnNode(byDigest, DigestSet(digests)).Values)
    ensures Resolved(reg, Cached(digests, byDigest), OnNode(byDigest, DigestSet(digests)))
         == reg.(own := reg.own + Repeated(byDigest, digests))
  {
    var images, here := Cached(digests, byDigest), OnNode(byDigest, DigestSet(digests));
    CachedAre(digests, byDigest);
    forall i: RSPImage ensures i in TwiceInFront(images, here) <==> i in Repeated(byDigest, digests) {
      CachedCounts(digests, byDigest, i);
      InDigestSet(digests, i.digest);
      TwiceIs(images, here, i);
    }
    assert TwiceInFront(images, here) == Repeated(byDigest, digests);
  }

  /** No two images of one digest are cached, so these lists do not clash. */
  lemma CachedNeverClash(digests: seq<Option<string>>, byDigest: map<string, RSPImage>, before: map<RSPImage, Saved>)
    requires forall d | d in byDigest :: byDigest[d].digest == d
    ensures !Clashes(Cached(digests, byDigest), before)
  {
    hide Heard, Cached;
    CachedAre(digests, byDigest);
    var images := Cached(digests, byDigest);
    forall n | 0 <= n < |images| ensures !ClashAt(images, n, before) {
      SetOfMember(images, n);
      assert forall f | f in SetOf(images) && f.digest == images[n].digest :: f == images[n];
    }
  }

  /** What the collections of the nodes are after `_build_nodes`. */
  ghost predicate Built(nodes: map<string, RSPImageCollection>, prepull: RSPImageCollection, cache: map<string, seq<Option<string>>>)
    reads nodes.Values, prepull
  {
    && (forall n | n in nodes ::
          && nodes[n].byDigest == OnNode(prepull.byDigest, CachedOn(cache, n))
          && nodes[n].members == nodes[n].byDigest.Values
          && multiset(Everything(nodes[n].byType)) == multiset(Cached(CacheOf(cache, n), prepull.byDigest)))
    && (forall m, n | m in nodes && n in nodes && m != n :: nodes[m] != nodes[n])
  }

  /** The collection of the images of interest on one node. */
  method BuildHere(prepull: RSPImageCollection, digests: seq<Option<string>>, ghost universe: set<RSPImage>, ghost reg: Registry)
    returns (node: RSPImageCollection, ghost after: Registry)
    requires prepull.Star(reg) && prepull.members <= universe && AllOk(universe, reg)
    modifies universe`aliases, universe`imageType, universe`aliasTarget, universe`cycle, universe`architecture, universe`date
    ensures fresh(node) && node.Star(after) && node.members <= universe && AllOk(universe, after) && OnlyGrown(old(Snapshot(universe)))
    ensures after == reg.(own := reg.own + Repeated(prepull.byDigest, digests))
    ensures node.byDigest == OnNode(prepull.byDigest, DigestSet(digests))
    ensures node.members == node.byDigest.Values
    ensures multiset(Everything(node.byType)) == multiset(Cached(digests, prepull.byDigest))
  {
    hide *;
    ghost var here := OnNode(prepull.byDigest, DigestSet(digests));
    MembersFound(prepull, reg);
    CachedAre(digests, prepull.byDigest);
    HereApart(prepull, DigestSet(digests), reg);
    CachedNeverClash(digests, prepull.byDigest, Snapshot(universe));
    var images := NodeImages(prepull.byDigest, digests);
    OfAnyCycle(images);
    var made;
    made, after := RSPImageCollection.Make(images, None, universe, reg);
    node := made.value;
    MembersFound(node, after);
    SameFronts(node.byDigest, node.members, here);
    TwiceCached(reg, digests, prepull.byDigest);
  }

  /** The same, beside the collections that share its images. */
  method BuildNode(prepull: RSPImageCollection, ghost others: set<RSPImageCollection>, digests: seq<Option<string>>,
                   ghost universe: set<RSPImage>, ghost reg: Registry)
    returns (node: RSPImageCollection, ghost after: Registry)
    requires prepull in others && AllStars(others, universe, reg) && AllOk(universe, reg)
    modifies universe`aliases, universe`imageType, universe`aliasTarget, universe`cycle, universe`architecture, universe`date
    ensures fresh(node) && AllStars(others + {node}, universe, after) && AllOk(universe, after) && OnlyGrown(old(Snapshot(universe)))
    ensures after == reg.(own := reg.own + Repeated(prepull.byDigest, digests))
    ensures node.byDigest == OnNode(prepull.byDigest, DigestSet(digests))
    ensures node.members == node.byDigest.Values
    ensures multiset(Everything(node.byType)) == multiset(Cached(digests, prepull.byDigest))
  {
    hide *;
    ghost var before := Snapshot(universe);
    SnapshotPlain(universe);
    StarsStand(others, universe, reg);
    OneStar(others, prepull, universe, reg);
    node, after := BuildHere(prepull, digests, universe, reg);
    StillStars(others, before, after);
    MoreStars(others, node, universe, after);
  }

  lemma HereApart(c: RSPImageCollection, digests: set<string>, reg: Registry)
    requires c.Star(reg)
    ensures var here := OnNode(c.byDigest, digests);
            here.Values <= c.members && TagsApart(here.Values) && forall d | d in here :: here[d].digest == d
  {
    MembersFound(c, reg);
    StarParts(c, reg);
    AllOwn(c.members, reg);
  }

  /** `_build_nodes` */
  method BuildNodes(prepull: RSPImageCollection, ghost others: set<RSPImageCollection>, names: set<string>,
                    cache: map<string, seq<Option<string>>>, ghost universe: set<RSPImage>, ghost reg: Registry)
    returns (nodes: map<string, RSPImageCollection>, ghost after: Registry)
    requires AllStars(others + {prepull}, universe, reg) && AllOk(universe, reg)
    modifies universe`aliases, universe`imageType, universe`aliasTarget, universe`cycle, universe`architecture, universe`date
    ensures fresh(nodes.Values) && nodes.Keys == names && Built(nodes, prepull, cache)
    ensures AllStars(others + {prepull} + nodes.Values, universe, after) && AllOk(universe, after) && OnlyGrown(old(Snapshot(universe)))
    ensures after == reg.(own := reg.own + CachedTwice(prepull.byDigest, cache, names))
  {
    hide *;
    ghost var start := Snapshot(universe);
    SnapshotPlain(universe);
    GrownAre(start, universe);
    NoNodes(prepull, cache, reg);
    nodes, after := map[], reg;
    ghost var cs := others + {prepull};
    var todo := names;
    assert names - todo == {};
    while todo != {}
      invariant todo <= names && nodes.Keys == names - todo && fresh(nodes.Values) && Built(nodes, prepull, cache)
      invariant cs == others + {prepull} + nodes.Values && AllStars(cs, universe, after)
      invariant AllOk(universe, after) && OnlyGrown(start)
      invariant after == reg.(own := reg.own + CachedTwice(prepull.byDigest, cache, names - todo))
      decreases todo
    {
      var name :| name in todo;
      var node;
      IsCachedOn(cache, name);
      ghost var done := names - todo;
      TwiceMore(prepull.byDigest, cache, done, name, reg);
      todo := todo - {name};
      ghost var was := Snapshot(universe);
      SnapshotPlain(universe);
      GrownAre(start, universe);
      node, after := BuildNode(prepull, cs, CacheOf(cache, name), universe, after);
      GrownAre(was, universe);
      GrownMore(start, was, Snapshot(universe));
      GrownAre(start, universe);
      BuiltMore(nodes, prepull, cache, name, node);
      MoreValues(nodes, name, node);
      nodes := nodes[name := node];
      cs := cs + {node};
      assert names - todo == done + {name};
    }
    assert names - todo == names;
  }

  lemma NoNodes(prepull: RSPImageCollection, cache: map<string, seq<Option<string>>>, reg: Registry)
    ensures Built(map[], prepull, cache) && reg.(own := reg.own + CachedTwice(prepull.byDigest, cache, {})) == reg
  {
  }

  lemma IsCachedOn(cache: map<string, seq<Option<string>>>, name: string)
    ensures CachedOn(cache, name) == DigestSet(CacheOf(cache, name))
  {
  }

  lemma BuiltMore(nodes: map<string, RSPImageCollection>, prepull: RSPImageCollection, cache: map<string, seq<Option<string>>>,
                  name: string, node: RSPImageCollection)
    requires Built(nodes, prepull, cache) && node !in nodes.Values && name !in nodes
    requires node.byDigest == OnNode(prepull.byDigest, CachedOn(cache, name)) && node.members == node.byDigest.Values
    requires multiset(Everything(node.byType)) == multiset(Cached(CacheOf(cache, name), prepull.byDigest))
    ensures Built(nodes[name := node], prepull, cache)
  {
    hide Listing, Cached, DigestSet;
  }

  lemma TwiceMore(byDigest: map<string, RSPImage>, cache: map<string, seq<Option<string>>>, names: set<string>, name: string, reg: Registry)
    ensures var was := reg.(own := reg.own + CachedTwice(byDigest, cache, names));
            was.(own := was.own + Repeated(byDigest, CacheOf(cache, name)))
            == reg.(own := reg.own + CachedTwice(byDigest, cache, names + {name}))
  {
    var digests := CacheOf(cache, name);
    var both := CachedTwice(byDigest, cache, names) + Repeated(byDigest, digests);
    assert CachedTwice(byDigest, cache, names + {name}) == both;
    assert reg.own + both == reg.own + CachedTwice(byDigest, cache, names) + Repeated(byDigest, digests);
  }

  lemma MoreValues(nodes: map<string, RSPImageCollection>, name: string, node: RSPImageCollection)
    requires name !in nodes
    ensures nodes[name := node].Values == nodes.Values + {node}
  {
    var after := nodes[name := node];
    assert after[name] == node;
    forall c | c in nodes.Values ensures c in after.Values {
      var n :| n in nodes && nodes[n] == c;
      assert after[n] == c;
    }
  }

  /** The nodes that have a digest cached. */
  ghost function NodesWith(cache: map<string, seq<Option<string>>>, digest: string): set<string> {
    set n | n in cache && digest in DigestSet(cache[n])
  }

  /** One node of the loop in `update_images`. */
  method MarkCachedOn(c: RSPImageCollection, name: string, digests: seq<Option<string>>, ghost reg: Registry)
    requires c.Star(reg)
    modifies c.members`nodes, c.members`size
    ensures c.Star(reg)
    ensures forall i | i in c.members ::
              i.nodes == old(i.nodes) + if i.digest in DigestSet(digests) && c.Reached(i, i.digest) then {name} else {}
  {
    hide DigestSet, RSPImageCollection.Star;
    NoDigests();
    assert digests[..0] == [];
    for n := 0 to |digests|
      invariant forall i | i in c.members ::
                  i.nodes == old(i.nodes) + if i.digest in DigestSet(digests[..n]) && c.Reached(i, i.digest) then {name} else {}
    {
      DigestSetNext(digests, n);
      if digests[n].Some? {
        c.MarkImageSeenOnNode(digests[n].value, name, None, reg);
      }
    }
    assert digests[..|digests|] == digests;
  }

  /**
   The node records that `update_images` sets: every image that is in front of its digest or
   found by its tag is marked as present on exactly the nodes that have its digest cached,
   besides those it was marked with already; if no two images have one tag, that is every
   image.
   */
  method MarkCached(c: RSPImageCollection, cache: map<string, seq<Option<string>>>, ghost reg: Registry)
    requires c.Star(reg)
    modifies c.members`nodes, c.members`size
    ensures c.Star(reg)
    ensures forall i | i in c.members :: i.nodes == old(i.nodes) + if c.Reached(i, i.digest) then NodesWith(cache, i.digest) else {}
    ensures TagsApart(c.members) ==> forall i | i in c.members :: c.Reached(i, i.digest)
    ensures forall i, n | i in c.members ::
              n in i.nodes <==> n in old(i.nodes) || (c.Reached(i, i.digest) && n in cache && Some(i.digest) in cache[n])
  {
    hide DigestSet, RSPImageCollection.Star, RSPImageCollection.Reached, TagsApart;
    AllReached(c, reg);
    var todo := cache.Keys;
    while todo != {}
      invariant todo <= cache.Keys
      invariant forall i | i in c.members ::
                  i.nodes == old(i.nodes) + if c.Reached(i, i.digest) then NodesWith(cache, i.digest) - todo else {}
      decreases todo
    {
      var name :| name in todo;
      MarkCachedOn(c, name, cache[name], reg);
      todo := todo - {name};
    }
    NodesTell(cache);
  }

  lemma NodesTell(cache: map<string, seq<Option<string>>>)
    ensures forall d, n :: n in NodesWith(cache, d) <==> n in cache && Some(d) in cache[n]
  {
    hide DigestSet;
    forall d, n ensures n in NodesWith(cache, d) <==> n in cache && Some(d) in cache[n] {
      if n in cache {
        InDigestSet(cache[n], d);
      }
    }
  }

  lemma AllReached(c: RSPImageCollection, reg: Registry)
    requires c.Star(reg)
    ensures TagsApart(c.members) ==> forall i | i in c.members :: c.Reached(i, i.digest)
  {
    hide *;
    forall i | i in c.members ensures TagsApart(c.members) ==> c.Reached(i, i.digest) {
      ReachedAre(c, i.digest, reg);
    }
  }

  lemma SourceReached(s: ImageService, digest: string, universe: set<RSPImage>, reg: Registry)
    requires s.Valid(universe, reg)
    ensures TagsApart(s.source.members) ==> forall i | i in s.source.members :: s.source.Reached(i, digest) <==> i.digest == digest
  {
    hide *;
    ValidParts(s, universe, reg);
    OneStar(s.Collections(), s.source, universe, reg);
    ReachedAre(s.source, digest, reg);
  }

  /** Nobody waits for a new digest, and nobody is in front of it: adding it does not fail. */
  lemma NewDigest(c: RSPImageCollection, image: RSPImage, universe: set<RSPImage>, reg: Registry)
    requires c.Star(reg)
    ensures image.digest !in c.byDigest ==> !c.AddFails(image, universe) && !c.IsAwaited(image)
  {
    hide IndexOk, AllOk, Clashes;
    if image.digest !in c.byDigest {
      NobodyWaits(c.members, c.byDigest, c.unresolved.Keys, image.digest);
    }
  }

  /** `add` to one of several collections that share images. */
  method AddApart(c: RSPImageCollection, image: RSPImage, ghost others: set<RSPImageCollection>,
                  ghost universe: set<RSPImage>, ghost reg: Registry)
    returns (r: Result<(), ImageError>, ghost after: Registry)
    requires c.Star(reg) && c.members + {image} <= universe && AllOk(universe, reg)
    requires c !in others && AllStars(others, universe, reg)
    modifies c
    modifies universe`aliases, universe`imageType, universe`aliasTarget, universe`cycle, universe`architecture, universe`date
    ensures if old(c.AddFails(image, universe)) then r == Err(SetChangedDuringIteration) else r.Ok?
    ensures AllOk(universe, after) && AllStars(others, universe, after) && OnlyGrown(old(Snapshot(universe)))
    ensures r.Ok? ==>
              && c.Star(after) && c.members <= universe && image.digest in c.byDigest
              && image.tag in c.byTag && c.byTag[image.tag] == image
    ensures r.Ok? && !old(c.IsAwaited(image)) ==> after == old(c.Joined(image, reg)) && c.byTag == old(c.byTag)[image.tag := image]
    ensures r.Ok? ==> c.members == (if old(c.IsAwaited(image)) then old(c.GenericMembers()) else old(c.members)) + {image}
    ensures image.digest !in old(c.byDigest) ==>
              r.Ok? && after == reg && !old(c.IsAwaited(image)) && Snapshot(universe) == old(Snapshot(universe))
  {
    hide *;
    ghost var before := Snapshot(universe);
    SnapshotPlain(universe);
    GenericAre(c);
    NewDigest(c, image, universe, reg);
    JoinedIs(c, image, reg);
    StarsStand(others, universe, reg);
    r, after := c.Add(image, universe, reg);
    StillStars(others, before, after);
  }

  lemma OneStar(cs: set<RSPImageCollection>, c: RSPImageCollection, universe: set<RSPImage>, reg: Registry)
    requires AllStars(cs, universe, reg) && c in cs
    ensures c.Star(reg) && c.members <= universe
  {
  }

  lemma NoneOk(universe: set<RSPImage>, reg: Registry)
    ensures AllOk({}, reg) && AllStars({}, universe, reg)
  {
  }

  lemma FewerStars(cs: set<RSPImageCollection>, some: set<RSPImageCollection>, universe: set<RSPImage>, reg: Registry)
    requires AllStars(cs, universe, reg)
    ensures AllStars(cs - some, universe, reg)
  {
  }

  lemma MoreStars(cs: set<RSPImageCollection>, c: RSPImageCollection, universe: set<RSPImage>, reg: Registry)
    ensures AllStars(cs, universe, reg) && c.members <= universe && c.Star(reg) ==>
              AllStars(cs + {c}, universe, reg)
  {
  }

  lemma NoneListed(list: seq<RSPImage>, digests: set<string>, byDigest: map<string, RSPImage>)
    requires OneOfEach(list, digests, byDigest)
    ensures list == [] <==> digests == {}
  {
    if list != [] {
      assert list[0].digest in DigestsOf(list);
    }
  }
}
