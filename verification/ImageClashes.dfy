/** When putting a list of images in order fails, in terms of the list and of what its images knew before. */
module ImageClashes {
  import opened Wrappers
  import opened Images
  import opened ImageLists
  import opened ImageFronts

  /** Some image that is no alias, among the first `n` of a list, has this tag. */
  ghost predicate TagBefore(images: seq<RSPImage>, n: nat, plain: set<RSPImage>, tag: string)
    requires n <= |images|
  {
    exists j | 0 <= j < n :: images[j] in plain && images[j].tag == tag
  }

  /**
   Whether `w` learns of `f`, the first image of its digest that is no alias, when the turn
   comes to another image of the digest that is no alias: from one that knew `w`, and from `f`
   itself if it is listed again and an image of this tag came before. Only the last image
   listed under a tag is told.
   */
  ghost predicate Tells(images: seq<RSPImage>, m: nat, before: map<RSPImage, Saved>, f: RSPImage, w: RSPImage)
    requires m < |images|
  {
    && IsFirst(images, m, PlainBefore(before), w.digest, f) && f.tag != w.tag && Found(images, w)
    && images[m] in PlainBefore(before) && images[m].digest == w.digest
    && (w.tag in before[images[m]].aliases || (images[m] == f && TagBefore(images, m, PlainBefore(before), w.tag)))
  }

  /** Whether `w` has learned of the image in front of its digest from one of the first `n` of a list. */
  ghost predicate Heard(images: seq<RSPImage>, n: nat, before: map<RSPImage, Saved>, w: RSPImage)
    requires n <= |images|
  {
    exists f, m | f in SetOf(images) && 0 <= m < n :: Tells(images, m, before, f, w)
  }

  /**
   Resolution fails at the `n`th image of a list, unless it failed before: that image is no
   alias, its own alias and the last listed under its tag, an image with another tag is in
   front of its digest, and it neither knew that image nor has heard of it.
   */
  ghost predicate ClashAt(images: seq<RSPImage>, n: nat, before: map<RSPImage, Saved>)
    requires n < |images|
  {
    var w := images[n];
    && w in PlainBefore(before) && Found(images, w) && w.tag in before[w].aliases && !Heard(images, n, before, w)
    && exists f | f in SetOf(images) ::
         IsFirst(images, n, PlainBefore(before), w.digest, f) && f.tag != w.tag && f.tag !in before[w].aliases
  }

  ghost predicate Clashes(images: seq<RSPImage>, before: map<RSPImage, Saved>) {
    exists n | 0 <= n < |images| :: ClashAt(images, n, before)
  }

  /** What an image of a list that is no alias knows after the first `n` images of the list. */
  ghost predicate KnowsAt(images: seq<RSPImage>, n: nat, before: map<RSPImage, Saved>, now: map<RSPImage, Saved>,
                          byDigest: map<string, RSPImage>, w: RSPImage)
    requires n <= |images| && w in before && w in now
  {
    if w.digest !in byDigest then now[w].aliases == before[w].aliases
    else
      var f := byDigest[w.digest];
      w != f ==>
        && now[w].aliases == before[w].aliases + (if Heard(images, n, before, w) || w in images[..n] then {f.tag} else {})
        && (f in now && f in before ==> KnownTo(images, n, before, now, f, w))
  }

  /** What the image in front knows of another of its digest. */
  ghost predicate KnownTo(images: seq<RSPImage>, n: nat, before: map<RSPImage, Saved>, now: map<RSPImage, Saved>, f: RSPImage, w: RSPImage)
    requires n <= |images| && f in before && f in now && w in now
  {
    && (TagBefore(images, n, PlainBefore(before), w.tag) && w.tag != f.tag ==> w.tag in now[f].aliases)
    && (Found(images, w) && w.tag in now[f].aliases ==>
          w.tag in before[f].aliases || f.tag in now[w].aliases || TagBefore(images, n, PlainBefore(before), w.tag))
  }

  ghost predicate PassKnows(images: seq<RSPImage>, n: nat, before: map<RSPImage, Saved>, now: map<RSPImage, Saved>,
                            byDigest: map<string, RSPImage>)
    requires n <= |images|
  {
    && now.Keys == before.Keys && SetOf(images) <= before.Keys
    && (forall w | w in SetOf(images) && w in PlainBefore(before) :: KnowsAt(images, n, before, now, byDigest, w))
    && (forall d | d in byDigest ::
          && byDigest[d] in before && before[byDigest[d]].aliases <= now[byDigest[d]].aliases
          && now[byDigest[d]].aliases <= before[byDigest[d]].aliases + TagsOf(SetOf(images)))
  }

  lemma ClashesHere(images: seq<RSPImage>, n: nat, before: map<RSPImage, Saved>)
    requires n < |images| && ClashAt(images, n, before)
    ensures Clashes(images, before)
  {
  }

  lemma NoClashes(images: seq<RSPImage>, before: map<RSPImage, Saved>)
    requires forall n | 0 <= n < |images| :: !ClashAt(images, n, before)
    ensures !Clashes(images, before)
  {
  }

  lemma NothingKnown(images: seq<RSPImage>, before: map<RSPImage, Saved>)
    requires SetOf(images) <= before.Keys
    ensures PassKnows(images, 0, before, before, map[])
  {
  }

  /** One more image of the list. */
  lemma HeardNext(images: seq<RSPImage>, n: nat, before: map<RSPImage, Saved>, w: RSPImage)
    requires n < |images|
    ensures Heard(images, n + 1, before, w) <==>
              Heard(images, n, before, w) || exists f | f in SetOf(images) :: Tells(images, n, before, f, w)
  {
    hide Tells;
    if Heard(images, n + 1, before, w) && !Heard(images, n, before, w) {
      var f, m :| f in SetOf(images) && 0 <= m < n + 1 && Tells(images, m, before, f, w);
      assert m == n;
    }
    if Heard(images, n, before, w) {
      var f, m :| f in SetOf(images) && 0 <= m < n && Tells(images, m, before, f, w);
      assert Tells(images, m, before, f, w);
    }
    if f :| f in SetOf(images) && Tells(images, n, before, f, w) {
      assert Tells(images, n, before, f, w);
    }
  }

  lemma ListedNext(images: seq<RSPImage>, n: nat, w: RSPImage)
    requires n < |images|
    ensures w in images[..n + 1] <==> w in images[..n] || w == images[n]
  {
    assert images[..n + 1] == images[..n] + [images[n]];
  }

  lemma TagBeforeNext(images: seq<RSPImage>, n: nat, plain: set<RSPImage>, tag: string)
    requires n < |images|
    ensures TagBefore(images, n + 1, plain, tag) <==> TagBefore(images, n, plain, tag) || (images[n] in plain && images[n].tag == tag)
  {
  }

  /** An image that may be an alias tells nobody anything in the first pass. */
  lemma KnowsSkipped(images: seq<RSPImage>, n: nat, before: map<RSPImage, Saved>, now: map<RSPImage, Saved>, byDigest: map<string, RSPImage>)
    requires n < |images| && images[n] !in PlainBefore(before) && PassKnows(images, n, before, now, byDigest)
    ensures PassKnows(images, n + 1, before, now, byDigest) && !ClashAt(images, n, before)
  {
    hide Heard, TagBefore, Found;
    forall w | w in SetOf(images) && w in PlainBefore(before) ensures KnowsAt(images, n + 1, before, now, byDigest, w) {
      HeardNext(images, n, before, w);
      ListedNext(images, n, w);
      TagBeforeNext(images, n, PlainBefore(before), w.tag);
      assert KnowsAt(images, n, before, now, byDigest, w);
    }
  }

  /** Before the first image of a digest that is no alias nobody has heard of it. */
  lemma NobodyHeard(images: seq<RSPImage>, n: nat, before: map<RSPImage, Saved>, w: RSPImage)
    requires n < |images| && TagsAlike(SetOf(images), PlainBefore(before)) && w in SetOf(images) && w in PlainBefore(before)
    requires forall k | 0 <= k < n && images[k] in PlainBefore(before) :: images[k].digest != w.digest
    ensures !Heard(images, n + 1, before, w) && w !in images[..n] && !TagBefore(images, n, PlainBefore(before), w.tag)
  {
    hide Found;
  }

  /** The first image of its digest that is no alias changes nothing. */
  lemma KnowsFirst(images: seq<RSPImage>, n: nat, before: map<RSPImage, Saved>, now: map<RSPImage, Saved>,
                   byDigest: map<string, RSPImage>, known: map<string, set<string>>)
    requires n < |images| && images[n] in PlainBefore(before) && images[n].digest !in byDigest
    requires TagsAlike(SetOf(images), PlainBefore(before)) && PassKnows(images, n, before, now, byDigest)
    requires known.Keys == byDigest.Keys && Covered(images, n, PlainBefore(before), byDigest, known)
    ensures PassKnows(images, n + 1, before, now, byDigest[images[n].digest := images[n]]) && !ClashAt(images, n, before)
  {
    hide Heard, TagBefore, Found, TagsAlike;
    var x := images[n];
    var after := byDigest[x.digest := x];
    assert x in SetOf(images);
    assert forall k | 0 <= k < n && images[k] in PlainBefore(before) :: images[k].digest != x.digest;
    forall w | w in SetOf(images) && w in PlainBefore(before) ensures KnowsAt(images, n + 1, before, now, after, w) {
      HeardNext(images, n, before, w);
      ListedNext(images, n, w);
      TagBeforeNext(images, n, PlainBefore(before), w.tag);
      assert KnowsAt(images, n, before, now, byDigest, w);
      if w.digest == x.digest {
        NobodyHeard(images, n, before, w);
      } else {
        OtherDigest(images, x, w, PlainBefore(before));
        assert !exists f | f in SetOf(images) :: Tells(images, n, before, f, w);
      }
    }
    assert KnowsAt(images, n, before, now, byDigest, x);
  }

  lemma OtherDigest(images: seq<RSPImage>, x: RSPImage, w: RSPImage, plain: set<RSPImage>)
    requires TagsAlike(SetOf(images), plain) && x in SetOf(images) && w in SetOf(images) && x.digest != w.digest
    ensures x.tag != w.tag
  {
  }

  /** Who is first among the images of a digest that are no aliases is told by nothing but the list. */
  lemma FirstIsOne(images: seq<RSPImage>, n: nat, plain: set<RSPImage>, digest: string, f: RSPImage, g: RSPImage)
    requires n <= |images| && IsFirst(images, n, plain, digest, f) && IsFirst(images, n, plain, digest, g)
    ensures f == g
  {
  }

  lemma TellsHere(images: seq<RSPImage>, n: nat, before: map<RSPImage, Saved>, f: RSPImage, w: RSPImage)
    requires n < |images| && images[n] in PlainBefore(before) && IsFirst(images, n, PlainBefore(before), images[n].digest, f)
    requires f in SetOf(images)
    ensures (exists g | g in SetOf(images) :: Tells(images, n, before, g, w)) <==>
              && w.digest == images[n].digest && f.tag != w.tag && Found(images, w)
              && (w.tag in before[images[n]].aliases || (images[n] == f && TagBefore(images, n, PlainBefore(before), w.tag)))
  {
    hide IsFirst, TagBefore, Found;
    if g :| g in SetOf(images) && Tells(images, n, before, g, w) {
      FirstIsOne(images, n, PlainBefore(before), w.digest, f, g);
    }
    if && w.digest == images[n].digest && f.tag != w.tag && Found(images, w)
       && (w.tag in before[images[n]].aliases || (images[n] == f && TagBefore(images, n, PlainBefore(before), w.tag))) {
      assert Tells(images, n, before, f, w);
    }
  }

  /** An image that was its own alias and is listed again has been heard of. */
  lemma OwnIsHeard(images: seq<RSPImage>, n: nat, before: map<RSPImage, Saved>, f: RSPImage, w: RSPImage)
    requires n <= |images| && w in images[..n] && w in PlainBefore(before) && w.tag in before[w].aliases && Found(images, w)
    requires IsFirst(images, n, PlainBefore(before), w.digest, f) && f in SetOf(images) && f.tag != w.tag
    ensures Heard(images, n, before, w)
  {
    hide Found;
    var m :| 0 <= m < n && images[..n][m] == w;
    var k :| 0 <= k < n && images[k] == f && f.digest == w.digest && f in PlainBefore(before)
             && forall l | 0 <= l < k && images[l].digest == w.digest :: images[l] !in PlainBefore(before);
    assert images[m] == w;
    assert IsFirst(images, m, PlainBefore(before), w.digest, f);
    assert Tells(images, m, before, f, w);
  }

  /** The image at hand clashes with the one in front of its digest exactly if the list says so. */
  lemma ClashIs(images: seq<RSPImage>, n: nat, before: map<RSPImage, Saved>, now: map<RSPImage, Saved>, byDigest: map<string, RSPImage>)
    requires n < |images| && images[n] in PlainBefore(before) && images[n].digest in byDigest
    requires PassKnows(images, n, before, now, byDigest)
    requires IsFirst(images, n, PlainBefore(before), images[n].digest, byDigest[images[n].digest])
    requires byDigest[images[n].digest] in SetOf(images)
    ensures ClashAt(images, n, before) <==>
              var x, f := images[n], byDigest[images[n].digest];
              f.tag != x.tag && Found(images, x) && x.tag in now[x].aliases && f.tag !in now[x].aliases
  {
    hide Heard, IsFirst, Found, TagBefore;
    var x, f, plain := images[n], byDigest[images[n].digest], PlainBefore(before);
    assert x in SetOf(images);
    assert KnowsAt(images, n, before, now, byDigest, x);
    forall g | g in SetOf(images) && IsFirst(images, n, plain, x.digest, g) ensures g == f {
      FirstIsOne(images, n, plain, x.digest, f, g);
    }
    if f.tag != x.tag && x in images[..n] && x.tag in before[x].aliases && Found(images, x) {
      OwnIsHeard(images, n, before, f, x);
    }
  }

  /** An image whose digest has one in front: what it is called is told to that one, and what it knows hears of that one. */
  lemma KnowsNext(images: seq<RSPImage>, n: nat, before: map<RSPImage, Saved>, was: map<RSPImage, Saved>, now: map<RSPImage, Saved>,
                  byDigest: map<string, RSPImage>, held: set<RSPImage>)
    requires n < |images| && images[n] in PlainBefore(before) && images[n].digest in byDigest
    requires TagsAlike(SetOf(images), PlainBefore(before)) && PassKnows(images, n, before, was, byDigest)
    requires forall d | d in byDigest :: byDigest[d].digest == d && byDigest[d] in SetOf(images)
    requires IsFirst(images, n, PlainBefore(before), images[n].digest, byDigest[images[n].digest])
    requires forall w | w in PlainBefore(before) :: w in was && was[w].aliasTarget.None?
    requires held <= SetOf(images)
    requires forall w | w in SetOf(images) ::
               w in held <==> Found(images, w) && w.tag in was[images[n]].aliases && w.tag != byDigest[images[n].digest].tag
    requires Overtaken(was, now, byDigest[images[n].digest], images[n], held, held + {images[n]})
    requires Widened(was, now, images[n].digest)
    ensures PassKnows(images, n + 1, before, now, byDigest)
  {
    hide Heard, IsFirst, Found, TagBefore, TagsAlike;
    var x, f, plain := images[n], byDigest[images[n].digest], PlainBefore(before);
    assert x in SetOf(images);
    forall w | w in SetOf(images) && w in plain ensures KnowsAt(images, n + 1, before, now, byDigest, w) {
      if w.digest == x.digest {
        KnowsNextAt(images, n, before, was, now, byDigest, held, w);
      } else {
        HeardNext(images, n, before, w);
        ListedNext(images, n, w);
        TagBeforeNext(images, n, plain, w.tag);
        OtherDigest(images, x, w, plain);
        assert KnowsAt(images, n, before, was, byDigest, w);
        assert !exists g | g in SetOf(images) :: Tells(images, n, before, g, w);
        assert now[w] == was[w] && (w.digest in byDigest ==> now[byDigest[w.digest]] == was[byDigest[w.digest]]);
      }
    }
    assert TagsOf(held) <= TagsOf(SetOf(images));
  }

  lemma KnowsNextAt(images: seq<RSPImage>, n: nat, before: map<RSPImage, Saved>, was: map<RSPImage, Saved>, now: map<RSPImage, Saved>,
                    byDigest: map<string, RSPImage>, held: set<RSPImage>, w: RSPImage)
    requires n < |images| && images[n] in PlainBefore(before) && images[n].digest in byDigest
    requires PassKnows(images, n, before, was, byDigest)
    requires forall d | d in byDigest :: byDigest[d].digest == d && byDigest[d] in SetOf(images)
    requires IsFirst(images, n, PlainBefore(before), images[n].digest, byDigest[images[n].digest])
    requires forall w | w in PlainBefore(before) :: w in was && was[w].aliasTarget.None?
    requires held <= SetOf(images)
    requires forall w | w in SetOf(images) ::
               w in held <==> Found(images, w) && w.tag in was[images[n]].aliases && w.tag != byDigest[images[n].digest].tag
    requires Overtaken(was, now, byDigest[images[n].digest], images[n], held, held + {images[n]})
    requires w in SetOf(images) && w in PlainBefore(before) && w in now && w.digest == images[n].digest
    ensures KnowsAt(images, n + 1, before, now, byDigest, w)
  {
    hide Heard, IsFirst, Found, TagBefore;
    var x, f, plain := images[n], byDigest[images[n].digest], PlainBefore(before);
    assert x in SetOf(images);
    HeardNext(images, n, before, w);
    ListedNext(images, n, w);
    TagBeforeNext(images, n, plain, w.tag);
    TellsHere(images, n, before, f, w);
    assert KnowsAt(images, n, before, was, byDigest, w);
    assert KnowsAt(images, n, before, was, byDigest, x);
    if w != f {
      HeldTags(images, held, w);
      hide PassKnows;
      assert now[w].aliases == was[w].aliases + if w in held || w == x then {f.tag} else {};
      assert now[f].aliases == was[f].aliases + {x.tag} + TagsOf(held);
    }
  }

  /** Of the images of one tag at most one is the last. */
  lemma HeldTags(images: seq<RSPImage>, held: set<RSPImage>, w: RSPImage)
    requires forall i | i in held :: Found(images, i)
    ensures Found(images, w) && w.tag in TagsOf(held) ==> w in held
  {
    if Found(images, w) && w.tag in TagsOf(held) {
      var i :| i in held && i.tag == w.tag;
      var a :| 0 <= a < |images| && images[a] == i && IsLast(images, a);
      var b :| 0 <= b < |images| && images[b] == w && IsLast(images, b);
      assert a == b;
    }
  }
}
