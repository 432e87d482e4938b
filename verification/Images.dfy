/** Tagged images: mutable records that several collections share. */
module Images {
  import opened Wrappers
  import opened TagOrder

  datatype ImageError = NotAnAlias | DigestsDiffer | SetChangedDuringIteration

  /** What alias resolution may change about an image. */
  datatype Saved = Saved(imageType: ImageType, cycle: Option<nat>, architecture: Option<string>, date: Option<int>,
                         aliases: set<string>, aliasTarget: Option<string>)

  predicate MayBeAlias(t: ImageType) {
    t.Alias? || t.Unknown?
  }

  /** `RSPImage`; what alias resolution never touches is constant. */
  class RSPImage {
    const parsed: Tag
    const tag: string
    const digest: string
    var imageType: ImageType
    var cycle: Option<nat>
    var architecture: Option<string>
    var date: Option<int>
    var aliases: set<string>
    var aliasTarget: Option<string>
    var nodes: set<string>
    var size: Option<nat>

    constructor (parsed: Tag, digest: string)
      ensures this.parsed == parsed && tag == parsed.name && this.digest == digest
      ensures Key() == parsed && aliases == {} && aliasTarget.None? && nodes == {} && size.None?
    {
      this.parsed, tag, this.digest := parsed, parsed.name, digest;
      imageType, cycle, architecture, date := parsed.imageType, parsed.cycle, parsed.architecture, parsed.date;
      aliases, aliasTarget, nodes, size := {}, None, {}, None;
    }

    /** What the image is sorted by right now. */
    function Key(): Tag
      reads `imageType, `cycle, `architecture, `date
    {
      parsed.(imageType := imageType, cycle := cycle, architecture := architecture, date := date)
    }

    function State(): Saved
      reads `imageType, `cycle, `architecture, `date, `aliases, `aliasTarget
    {
      Saved(imageType, cycle, architecture, date, aliases, aliasTarget)
    }

    predicate IsPossibleAlias()
      reads `imageType
    {
      MayBeAlias(imageType)
    }

    predicate IsGeneric()
      reads `architecture
    {
      architecture.GetOr("") == ""
    }

    /** The nodes and the size of an image after it was seen on a node. */
    predicate Seen(node: string, imageSize: Option<nat>, was: set<string>, wasSize: Option<nat>)
      reads `nodes, `size
    {
      nodes == was + {node} && size == if imageSize.GetOr(0) != 0 then imageSize else wasSize
    }

    method SeenOn(node: string, imageSize: Option<nat>)
      modifies `nodes, `size
      ensures Seen(node, imageSize, old(nodes), old(size))
      ensures nodes == old(nodes) + {node} && size == if imageSize.Some? && imageSize.value > 0 then imageSize else old(size)
    {
      nodes := nodes + {node};
      if imageSize.GetOr(0) != 0 {
        size := imageSize;
      }
    }

    /**
     `resolve_alias`. The loop walks the target's aliases and adds to this image's, so the
     set it walks stays put.
     */
    method ResolveAlias(target: RSPImage) returns (r: Result<(), ImageError>)
      requires target != this
      modifies this`imageType, this`aliasTarget, this`aliases, this`cycle, this`architecture, this`date, target`aliases
      ensures r == Err(NotAnAlias) <==> !old(imageType.Alias? || imageType.Unknown?)
      ensures r.Err? ==> unchanged(this) && unchanged(target)
      ensures old(IsPossibleAlias()) ==>
                && r == Ok(())
                && imageType.Alias? && aliasTarget == Some(target.tag)
                && aliases == old(aliases) + (old(target.aliases) - {tag})
                && cycle == old(target.cycle)
                && architecture == (if old(architecture).None? then old(target.architecture) else old(architecture))
                && date == (if old(date).None? then old(target.date) else old(date))
                && target.aliases == old(target.aliases) + {tag}
    {
      if !IsPossibleAlias() {
        return Err(NotAnAlias);
      }
      imageType := Alias;
      aliasTarget := Some(target.tag);
      var todo := target.aliases;
      ghost var before := aliases;
      while todo != {}
        invariant todo <= target.aliases == old(target.aliases)
        invariant aliases == before + (target.aliases - todo - {tag})
        invariant imageType.Alias? && aliasTarget == Some(target.tag)
        invariant unchanged(target) && unchanged(this`cycle, this`architecture, this`date)
        decreases todo
      {
        var alias :| alias in todo;
        if alias != tag {
          aliases := aliases + {alias};
        }
        todo := todo - {alias};
      }
      target.aliases := target.aliases + {tag};
      cycle := target.cycle;
      if architecture.None? {
        architecture := target.architecture;
      }
      if date.None? {
        date := target.date;
      }
      r := Ok(());
    }
  }

  /**
   What is fixed about tags and images: the digest of every tag name, which tags may name
   aliases, and which images are aliases of themselves.
   */
  datatype Registry = Registry(digestOf: string -> string, namesAlias: string -> bool, own: set<RSPImage>) {
    function With(i: RSPImage): (r: Registry)
      ensures r.digestOf == digestOf && r.namesAlias == namesAlias && r.own == own + {i}
    {
      this.(own := own + {i})
    }
  }

  /**
   What alias resolution may rely on for each image: its tag tells its digest and whether it
   may be an alias, its aliases and targets name the same digest, the image is among its own
   aliases if and only if that is registered, only aliases have targets and none targets
   itself, and the image still carries what its series is compared by.
   */
  ghost predicate ImageOk(i: RSPImage, reg: Registry)
    reads i`imageType, i`cycle, i`architecture, i`date, i`aliases, i`aliasTarget
  {
    && reg.digestOf(i.tag) == i.digest && (reg.namesAlias(i.tag) <==> i.IsPossibleAlias())
    && (i.tag in i.aliases <==> i in reg.own)
    && (forall a | a in i.aliases :: reg.digestOf(a) == i.digest)
    && (i.aliasTarget.Some? ==>
          i.imageType.Alias? && reg.digestOf(i.aliasTarget.value) == i.digest && i.aliasTarget.value != i.tag)
    && WellParsed(i.Key())
  }

  ghost predicate AllOk(images: set<RSPImage>, reg: Registry)
    reads images`imageType, images`cycle, images`architecture, images`date, images`aliases, images`aliasTarget
  {
    forall i | i in images :: ImageOk(i, reg)
  }

  /** `other.aliases.add(tag)` */
  method AddAlias(other: RSPImage, alias: string, ghost universe: set<RSPImage>, ghost reg: Registry)
    requires other in universe && AllOk(universe, reg)
    requires reg.digestOf(alias) == other.digest
    modifies other`aliases
    ensures other.aliases == old(other.aliases) + {alias}
    ensures AllOk(universe, if alias == other.tag then reg.With(other) else reg)
  {
    hide WellParsed;
    other.aliases := other.aliases + {alias};
    forall i | i in universe ensures ImageOk(i, if alias == other.tag then reg.With(other) else reg) {
      assert old(ImageOk(i, reg));
    }
  }

  /** `resolve_alias` where the program calls it: on an alias that shares its target's digest. */
  method ResolveOne(alias: RSPImage, target: RSPImage, ghost universe: set<RSPImage>, ghost reg: Registry)
    requires alias in universe && target in universe && alias != target && AllOk(universe, reg)
    requires alias.digest == target.digest && alias.tag != target.tag && alias.IsPossibleAlias()
    modifies alias`imageType, alias`aliasTarget, alias`aliases, alias`cycle, alias`architecture, alias`date, target`aliases
    ensures AllOk(universe, reg)
    ensures alias.imageType.Alias? && alias.aliasTarget == Some(target.tag)
    ensures alias.aliases == old(alias.aliases) + (old(target.aliases) - {alias.tag})
    ensures target.aliases == old(target.aliases) + {alias.tag}
    ensures alias.architecture == (if old(alias.architecture).None? then old(target.architecture) else old(alias.architecture))
  {
    assert ImageOk(alias, reg) && ImageOk(target, reg);
    var r := alias.ResolveAlias(target);
    assert r.Ok?;
    forall i | i in universe ensures ImageOk(i, reg) {
      assert old(ImageOk(i, reg));
    }
  }

  /** An image is sorted by its tag as parsed, with the type, cycle, architecture and date that it has by now. */
  lemma KeyTells(i: RSPImage)
    ensures var k, p := i.Key(), i.parsed;
            && k.imageType == i.imageType && k.cycle == i.cycle && k.architecture == i.architecture && k.date == i.date
            && k.name == p.name && k.base == p.base && k.version == p.version && k.semantic == p.semantic
            && k.cycleBuild == p.cycleBuild && k.build == p.build && k.extra == p.extra
  {
  }

  /** No image is for one particular architecture. */
  ghost predicate NoArchitectures(images: set<RSPImage>)
    reads images`architecture
  {
    forall i | i in images :: i.IsGeneric()
  }
}
