/** The binary kernel messages of `v1.kernel.websocket.jupyter.org`. */
module WebSocketCodec {
  import opened Wrappers

  newtype byte = x: int | 0 <= x < 256

  type Bytes = seq<byte>

  datatype CodecError = MissingChannel | Overflow | UnexpectedText | TooFewOffsets | Malformed

  datatype Frame = Text(text: string) | Binary(bytes: Bytes)

  /** A message to send: the channel must be there, the other parts need not. */
  datatype Message<J> = Message(channel: Option<string>, header: Option<J>, parentHeader: Option<J>, metadata: Option<J>, content: Option<J>)

  datatype Decoded<J> = Decoded(channel: string, header: J, parentHeader: J, metadata: J, content: J)

  /** How text and JSON are written as bytes and read back, and the empty JSON object. */
  datatype Formats<!J(!new)> = Formats(encodeText: string -> Bytes, decodeText: Bytes -> Option<string>,
                                      dumps: J -> Bytes, loads: Bytes -> Option<J>, empty: J)
  {
    ghost predicate Sound() {
      && (forall text :: decodeText(encodeText(text)) == Some(text))
      && (forall value :: loads(dumps(value)) == Some(value))
    }
  }

  // ----- numbers

  function Power(k: nat): (p: nat)
    ensures p > 0
  {
    if k == 0 then 1 else 256 * Power(k - 1)
  }

  /** `int.from_bytes` in little-endian order. */
  function FromBytes(s: Bytes): nat {
    if s == [] then 0 else s[0] as nat + 256 * FromBytes(s[1..])
  }

  /** The `k` lowest bytes of a number, lowest first. */
  function Little(n: nat, k: nat): (s: Bytes)
    ensures |s| == k
  {
    if k == 0 then [] else [(n % 256) as byte] + Little(n / 256, k - 1)
  }

  lemma {:induction false} LittleReads(n: nat, k: nat)
    requires n < Power(k)
    ensures FromBytes(Little(n, k)) == n
  {
    if k > 0 {
      LittleReads(n / 256, k - 1);
      assert Little(n, k)[1..] == Little(n / 256, k - 1);
    }
  }

  /** Bytes come lowest first: each tells its own power of 256. */
  lemma {:induction false} LittlePlaces(n: nat, k: nat, i: nat)
    requires i < k
    ensures Little(n, k)[i] as nat == (n / Power(i)) % 256
  {
    if i > 0 {
      LittlePlaces(n / 256, k - 1, i - 1);
      DividedTwice(n, Power(i - 1));
    }
  }

  lemma DividedTwice(n: nat, p: nat)
    requires p > 0
    ensures (n / 256) / p == n / (256 * p)
  {
    var q, r := n / (256 * p), n % (256 * p);
    assert n == 256 * p * q + r;
    var s, t := r / 256, r % 256;
    assert s < p;
    assert n == 256 * (p * q + s) + t;
    assert n / 256 == p * q + s;
    Quotient(p, q, s);
  }

  lemma Quotient(p: nat, q: nat, s: nat)
    requires s < p
    ensures (p * q + s) / p == q
  {
    var d := (p * q + s) / p;
    assert p * d <= p * q + s < p * (d + 1);
    TimesGrows(p, d + 1, q);
    TimesGrows(p, q + 1, d);
  }

  lemma TimesGrows(p: nat, a: nat, b: nat)
    ensures a <= b ==> p * a <= p * b
  {
  }

  const LIMIT: nat := 0x1_0000_0000_0000_0000

  lemma LimitIsPower()
    ensures Power(8) == LIMIT
  {
    assert Power(4) == 0x1_0000_0000;
    assert Power(8) == 256 * (256 * (256 * (256 * Power(4))));
  }

  /** `to_bytes(8, byteorder="little")` */
  function ToBytes(n: nat): Result<Bytes, CodecError> {
    if n < LIMIT then Ok(Little(n, 8)) else Err(Overflow)
  }

  // ----- Python's slices

  function Min(a: nat, b: nat): nat {
    if a <= b then a else b
  }

  /** `s[a:b]`: bounds past the end mean the end, and crossed bounds give nothing. */
  function Slice(s: Bytes, a: nat, b: nat): Bytes {
    if Min(a, |s|) <= Min(b, |s|) then s[Min(a, |s|)..Min(b, |s|)] else []
  }

  // ----- decoding

  /** The number at the `i`-th place of eight bytes. */
  function NumberAt(message: Bytes, i: nat): nat {
    FromBytes(Slice(message, 8 * i, 8 * (i + 1)))
  }

  /** The list of offsets, as long as the message says it is. */
  function OffsetsOf(message: Bytes): (r: seq<nat>)
    ensures |r| == NumberAt(message, 0) && forall i | 0 <= i < |r| :: r[i] == NumberAt(message, i + 1)
  {
    seq(NumberAt(message, 0), i requires 0 <= i => NumberAt(message, i + 1))
  }

  /** `decode_websocket_message`. Too few offsets raise an `IndexError`, which the documentation does not mention. */
  function Decode<J(!new)>(f: Formats<J>, frame: Frame): Result<Decoded<J>, CodecError> {
    if frame.Text? then Err(UnexpectedText)
    else
      var message, offset := frame.bytes, OffsetsOf(frame.bytes);
      if |offset| < 2 then Err(TooFewOffsets)
      else
        match f.decodeText(Slice(message, offset[0], offset[1]))
        case None => Err(Malformed)
        case Some(channel) =>
          var header :- LoadPart(f, message, offset, 1);
          var parentHeader :- LoadPart(f, message, offset, 2);
          var metadata :- LoadPart(f, message, offset, 3);
          var content :- LoadPart(f, message, offset, 4);
          Ok(Decoded(channel, header, parentHeader, metadata, content))
  }

  /** `json.loads(message[offset[i] : offset[i + 1]])` */
  function LoadPart<J(!new)>(f: Formats<J>, message: Bytes, offset: seq<nat>, i: nat): Result<J, CodecError> {
    if |offset| <= i + 1 then Err(TooFewOffsets)
    else
      match f.loads(Slice(message, offset[i], offset[i + 1]))
      case None => Err(Malformed)
      case Some(value) => Ok(value)
  }

  // ----- encoding

  /** Where each part starts if the first starts at `from`, and where the last one ends. */
  function Starts(from: nat, parts: seq<Bytes>): (offsets: seq<nat>)
    ensures |offsets| == |parts| + 1
  {
    if parts == [] then [from]
    else
      var before := Starts(from, parts[..|parts| - 1]);
      before + [before[|before| - 1] + |parts[|parts| - 1]|]
  }

  function Numbers(ns: seq<nat>): (s: Bytes)
    ensures |s| == 8 * |ns|
  {
    if ns == [] then [] else Numbers(ns[..|ns| - 1]) + Little(ns[|ns| - 1], 8)
  }

  function Concat(parts: seq<Bytes>): Bytes {
    if parts == [] then [] else Concat(parts[..|parts| - 1]) + parts[|parts| - 1]
  }

  /** The parts of a message: its channel, and the rest with `{}` for what is absent. */
  function Parts<J(!new)>(f: Formats<J>, channel: string, m: Message<J>): seq<Bytes> {
    [f.encodeText(channel), f.dumps(m.header.GetOr(f.empty)), f.dumps(m.parentHeader.GetOr(f.empty)),
     f.dumps(m.metadata.GetOr(f.empty)), f.dumps(m.content.GetOr(f.empty))]
  }

  /** The bytes of a message whose offsets all fit. */
  function Layout(offsets: seq<nat>, parts: seq<Bytes>): Bytes {
    Numbers([|offsets|] + offsets) + Concat(parts)
  }

  /** The loop over offsets in `encode_websocket_message`. */
  method EncodeNumbers(ns: seq<nat>) returns (r: Result<Bytes, CodecError>)
    ensures r.Ok? <==> forall n | n in ns :: n < LIMIT
    ensures r.Ok? ==> r.value == Numbers(ns)
  {
    var bytes := [];
    for k := 0 to |ns|
      invariant bytes == Numbers(ns[..k]) && forall j | 0 <= j < k :: ns[j] < LIMIT
    {
      var next := ToBytes(ns[k]);
      if next.Err? {
        assert ns[k] in ns;
        return Err(next.error);
      }
      assert ns[..k + 1][..k] == ns[..k];
      bytes := bytes + next.value;
    }
    assert ns[..|ns|] == ns;
    r := Ok(bytes);
  }

  /** `encode_websocket_message` */
  method Encode<J(!new)>(f: Formats<J>, m: Message<J>) returns (r: Result<Bytes, CodecError>)
    ensures m.channel.None? ==> r == Err(MissingChannel)
    ensures m.channel.Some? ==>
              var parts := Parts(f, m.channel.value, m);
              && (r.Ok? <==> 56 + |Concat(parts)| < LIMIT)
              && (r.Ok? ==> r.value == Layout(Starts(56, parts), parts))
              && (r.Err? ==> r.error == Overflow)
  {
    if m.channel.None? {
      return Err(MissingChannel);
    }
    var parts := Parts(f, m.channel.value, m);
    var offsets: seq<nat> := [56];
    for k := 0 to |parts|
      invariant offsets == Starts(56, parts[..k])
    {
      assert parts[..k + 1][..k] == parts[..k];
      offsets := offsets + [|parts[k]| + offsets[|offsets| - 1]];
    }
    assert parts[..|parts|] == parts;
    StartsRise(56, parts);
    var ns := [|offsets|] + offsets;
    assert ns[|parts| + 1] == offsets[|parts|] && ns[|parts| + 1] in ns;
    var numbers := EncodeNumbers(ns);
    if numbers.Err? {
      return Err(Overflow);
    }
    r := Ok(numbers.value + Concat(parts));
  }

  // ----- the round trip

  /** Offsets never decrease, and the last is where all the parts end. */
  lemma {:induction false} StartsRise(from: nat, parts: seq<Bytes>)
    ensures var offsets := Starts(from, parts);
            && offsets[0] == from && offsets[|parts|] == from + |Concat(parts)|
            && (forall i, j | 0 <= i <= j < |offsets| :: offsets[i] <= offsets[j])
    ensures forall o | o in Starts(from, parts) :: o <= from + |Concat(parts)|
  {
    if parts != [] {
      StartsRise(from, parts[..|parts| - 1]);
    }
  }

  lemma {:induction false} PartThere(from: nat, parts: seq<Bytes>, i: nat)
    requires i < |parts|
    ensures var offsets := Starts(from, parts);
            && from <= offsets[i] && offsets[i + 1] == offsets[i] + |parts[i]| && offsets[i + 1] - from <= |Concat(parts)|
            && Concat(parts)[offsets[i] - from..offsets[i + 1] - from] == parts[i]
  {
    var n := |parts| - 1;
    StartsRise(from, parts[..n]);
    if i < n {
      PartThere(from, parts[..n], i);
    }
  }

  lemma {:induction false} NumberThere(ns: seq<nat>, rest: Bytes, i: nat)
    requires i < |ns| && ns[i] < LIMIT
    ensures NumberAt(Numbers(ns) + rest, i) == ns[i]
  {
    var n := |ns| - 1;
    LimitIsPower();
    if i == n {
      assert Slice(Numbers(ns) + rest, 8 * i, 8 * (i + 1)) == Little(ns[n], 8);
      LittleReads(ns[n], 8);
    } else {
      NumberThere(ns[..n], Little(ns[n], 8) + rest, i);
      assert Numbers(ns) + rest == Numbers(ns[..n]) + (Little(ns[n], 8) + rest);
    }
  }

  lemma OffsetRead(offsets: seq<nat>, rest: Bytes, i: nat)
    requires i < |offsets| && offsets[i] < LIMIT
    ensures NumberAt(Numbers([|offsets|] + offsets) + rest, i + 1) == offsets[i]
  {
    hide Numbers, NumberAt;
    NumberThere([|offsets|] + offsets, rest, i + 1);
  }

  lemma OffsetsRead(offsets: seq<nat>, rest: Bytes)
    requires |offsets| < LIMIT && forall i | 0 <= i < |offsets| :: offsets[i] < LIMIT
    ensures OffsetsOf(Numbers([|offsets|] + offsets) + rest) == offsets
  {
    hide Numbers, NumberAt, OffsetsOf;
    var message := Numbers([|offsets|] + offsets) + rest;
    NumberThere([|offsets|] + offsets, rest, 0);
    forall i | 0 <= i < |offsets| ensures NumberAt(message, i + 1) == offsets[i] {
      OffsetRead(offsets, rest, i);
    }
  }

  lemma SliceBehind(front: Bytes, rest: Bytes, a: nat, b: nat)
    requires a <= b <= |rest|
    ensures Slice(front + rest, |front| + a, |front| + b) == rest[a..b]
  {
  }

  /** The offsets and the parts that are read back from a layout. */
  lemma LayoutReads(parts: seq<Bytes>)
    requires |parts| == 5 && 56 + |Concat(parts)| < LIMIT
    ensures var offsets := Starts(56, parts); var message := Layout(offsets, parts);
            && OffsetsOf(message) == offsets && |message| == offsets[5]
            && forall i | 0 <= i < 5 :: Slice(message, offsets[i], offsets[i + 1]) == parts[i]
  {
    hide Numbers, Starts, Concat, OffsetsOf, Slice;
    var offsets := Starts(56, parts);
    StartsRise(56, parts);
    OffsetsRead(offsets, Concat(parts));
    forall i | 0 <= i < 5 ensures Slice(Layout(offsets, parts), offsets[i], offsets[i + 1]) == parts[i] {
      PartThere(56, parts, i);
      SliceBehind(Numbers([|offsets|] + offsets), Concat(parts), offsets[i] - 56, offsets[i + 1] - 56);
    }
  }

  /** The message with `{}` for its absent parts. */
  function Filled<J(!new)>(f: Formats<J>, channel: string, m: Message<J>): Decoded<J> {
    Decoded(channel, m.header.GetOr(f.empty), m.parentHeader.GetOr(f.empty), m.metadata.GetOr(f.empty), m.content.GetOr(f.empty))
  }

  /** What `Encode` gives is decoded into the message, for parts of any content that fit. */
  lemma RoundTrip<J(!new)>(f: Formats<J>, channel: string, m: Message<J>)
    requires f.Sound()
    requires 56 + |Concat(Parts(f, channel, m))| < LIMIT
    ensures var parts := Parts(f, channel, m);
            Decode(f, Binary(Layout(Starts(56, parts), parts))) == Ok(Filled(f, channel, m))
  {
    hide Layout, Starts, Concat, OffsetsOf, Slice;
    LayoutReads(Parts(f, channel, m));
  }

  /** The offsets of an encoded message: they start at 56, never decrease, and end at its length. */
  lemma OffsetsSpan(parts: seq<Bytes>)
    requires |parts| == 5 && 56 + |Concat(parts)| < LIMIT
    ensures var message := Layout(Starts(56, parts), parts); var offsets := OffsetsOf(message);
            && |offsets| == 6 && offsets[0] == 56 && offsets[5] == |message|
            && forall i, j | 0 <= i <= j < 6 :: offsets[i] <= offsets[j]
  {
    LayoutReads(parts);
    StartsRise(56, parts);
  }

  /** Python's slices: up to the end at most, and nothing if the bounds cross or lie behind the end. */
  lemma SliceTells(s: Bytes, a: nat, b: nat)
    ensures a <= b <= |s| ==> Slice(s, a, b) == s[a..b]
    ensures a <= |s| < b ==> Slice(s, a, b) == s[a..]
    ensures b <= a || |s| <= a ==> Slice(s, a, b) == []
  {
  }

  /** What is decoded comes from between the offsets: the channel first, then header, parent header, metadata and content. */
  lemma DecodeReads<J(!new)>(f: Formats<J>, message: Bytes)
    requires Decode(f, Binary(message)).Ok?
    ensures NumberAt(message, 0) >= 6
    ensures var d := Decode(f, Binary(message)).value;
            && f.decodeText(Slice(message, NumberAt(message, 1), NumberAt(message, 2))) == Some(d.channel)
            && f.loads(Slice(message, NumberAt(message, 2), NumberAt(message, 3))) == Some(d.header)
            && f.loads(Slice(message, NumberAt(message, 3), NumberAt(message, 4))) == Some(d.parentHeader)
            && f.loads(Slice(message, NumberAt(message, 4), NumberAt(message, 5))) == Some(d.metadata)
            && f.loads(Slice(message, NumberAt(message, 5), NumberAt(message, 6))) == Some(d.content)
  {
    hide Slice, NumberAt;
    DecodeFails(f, Binary(message));
  }

  /** Every part that the first offsets delimit can be read; what is missing after them is not asked for. */
  ghost predicate ReadableSoFar<J(!new)>(f: Formats<J>, message: Bytes, offset: seq<nat>, n: nat) {
    && (n > 0 && |offset| >= 2 ==> f.decodeText(Slice(message, offset[0], offset[1])).Some?)
    && forall i | 1 <= i < n && i + 1 < |offset| :: f.loads(Slice(message, offset[i], offset[i + 1])).Some?
  }

  /**
   Which error a frame raises. `IndexError`, which the documentation does not mention, comes
   exactly from the frames that announce fewer than six offsets and whose parts up to the
   last offset can be read.
   */
  lemma DecodeFails<J(!new)>(f: Formats<J>, frame: Frame)
    ensures Decode(f, frame) == Err(UnexpectedText) <==> frame.Text?
    ensures frame.Binary? ==>
              var offset := OffsetsOf(frame.bytes);
              && (Decode(f, frame) == Err(TooFewOffsets) <==> |offset| < 6 && ReadableSoFar(f, frame.bytes, offset, 5))
              && (Decode(f, frame).Ok? <==> |offset| >= 6 && ReadableSoFar(f, frame.bytes, offset, 5))
              && (Decode(f, frame) == Err(Malformed) <==> !ReadableSoFar(f, frame.bytes, offset, 5))
  {
    hide OffsetsOf, Slice;
    if frame.Binary? {
      var message, offset := frame.bytes, OffsetsOf(frame.bytes);
      if |offset| >= 2 && f.decodeText(Slice(message, offset[0], offset[1])).Some? {
        PartsFail(f, message, offset);
      }
    }
  }

  lemma PartsFail<J(!new)>(f: Formats<J>, message: Bytes, offset: seq<nat>)
    requires |offset| >= 2
    ensures LoadPart(f, message, offset, 1).Ok? && LoadPart(f, message, offset, 2).Ok?
            && LoadPart(f, message, offset, 3).Ok? && LoadPart(f, message, offset, 4).Ok? <==>
            |offset| >= 6 && forall i | 1 <= i < 5 && i + 1 < |offset| :: f.loads(Slice(message, offset[i], offset[i + 1])).Some?
  {
  }

  /** A frame too short for any offset, such as an empty one, raises `IndexError` and neither documented error. */
  lemma ShortFrameFails<J(!new)>(f: Formats<J>)
    ensures Decode(f, Binary([])) == Err(TooFewOffsets)
    ensures Decode(f, Binary([1, 0, 0, 0, 0, 0, 0, 0])) == Err(TooFewOffsets)
  {
    var one: Bytes := [1, 0, 0, 0, 0, 0, 0, 0];
    assert Slice(one, 0, 8) == one && one == Little(1, 8);
    assert 1 < Power(8) by {
      LimitIsPower();
    }
    LittleReads(1, 8);
  }
}
