/** Bytes read and held by a whole stack of layers (`kv_at_ctx`, scripts/profile/perf_ceiling.py). */
module KvStack {
  import opened KvBytes

  const TAIL_LAYERS := 8
  const HEAD_LAYERS := 2

  /** One layer; a window of zero is none. */
  datatype Layer = Layer(headDim: nat, kvHeads: nat, window: nat, ownsKv: bool, kvSource: nat)

  /** The layers by index, as they are built. */
  predicate Valid(layers: seq<Layer>) {
    forall i :: 0 <= i < |layers| ==> layers[i].kvSource < |layers|
  }

  predicate SharesKv(layers: seq<Layer>) {
    exists i :: 0 <= i < |layers| && layers[i].kvSource != i
  }

  /** `kv_quant_for_layer`. */
  function CodecFor(idx: nat, layers: nat, base: Codec, sharesKv: bool): Codec {
    if base.kBits >= 16 && base.vBits >= 16 then base
    else if idx + TAIL_LAYERS >= layers || idx < HEAD_LAYERS then BoundaryFloor(base, sharesKv)
    else base
  }

  function Min(a: nat, b: nat): nat {
    if a < b then a else b
  }

  function ShapeOf(l: Layer, seqLen: nat): Shape {
    Shape(seqLen, l.headDim, l.kvHeads)
  }

  /** The most tokens a global layer is given room for: `max_ctx`, or the context when there is none. */
  function Ceiling(ctx: nat, maxCtx: nat): nat {
    if maxCtx != 0 then maxCtx else ctx
  }

  /** What attention at layer `i` reads in one step. */
  function LayerRead(layers: seq<Layer>, i: nat, base: Codec, ctx: nat): nat
    requires Valid(layers) && i < |layers|
  {
    var k := layers[i].kvSource;
    var src := layers[k];
    if !src.ownsKv then 0
    else if src.window != 0 then DecodeRead(PLAIN_CODEC, ShapeOf(src, Min(ctx, src.window)))
    else DecodeRead(CodecFor(k, |layers|, base, SharesKv(layers)), ShapeOf(src, ctx))
  }

  /** What layer `i` holds. */
  function LayerHeld(layers: seq<Layer>, i: nat, base: Codec, ctx: nat, maxCtx: nat): nat
    requires i < |layers|
  {
    var l := layers[i];
    if !l.ownsKv then 0
    else if l.window != 0 then Resident(PLAIN_CODEC, ShapeOf(l, l.window), SharesKv(layers))
    else
      Resident(CodecFor(i, |layers|, base, SharesKv(layers)), ShapeOf(l, Min(NextPow2(ctx), Ceiling(ctx, maxCtx))),
               SharesKv(layers))
  }

  function ReadTo(layers: seq<Layer>, n: nat, base: Codec, ctx: nat): nat
    requires Valid(layers) && n <= |layers|
  {
    if n == 0 then 0 else ReadTo(layers, n - 1, base, ctx) + LayerRead(layers, n - 1, base, ctx)
  }

  function HeldTo(layers: seq<Layer>, n: nat, base: Codec, ctx: nat, maxCtx: nat): nat
    requires n <= |layers|
  {
    if n == 0 then 0 else HeldTo(layers, n - 1, base, ctx, maxCtx) + LayerHeld(layers, n - 1, base, ctx, maxCtx)
  }

  function CountTo(layers: seq<Layer>, n: nat, windowed: bool): nat
    requires n <= |layers|
  {
    if n == 0 then 0
    else
      CountTo(layers, n - 1, windowed)
      + if layers[n - 1].ownsKv && (layers[n - 1].window != 0) == windowed then 1 else 0
  }

  method StackSharesKv(layers: seq<Layer>) returns (shares: bool)
    ensures shares == SharesKv(layers)
  {
    for i := 0 to |layers|
      invariant forall k :: 0 <= k < i ==> layers[k].kvSource == k
    {
      if layers[i].kvSource != i { return true; }
    }
    return false;
  }

  method KvAtCtx(layers: seq<Layer>, base: Codec, ctx: nat, maxCtx: nat)
    returns (read: nat, held: nat, global: nat, windowed: nat)
    requires Valid(layers)
    ensures read == ReadTo(layers, |layers|, base, ctx)
    ensures held == HeldTo(layers, |layers|, base, ctx, maxCtx)
    ensures global == CountTo(layers, |layers|, false) && windowed == CountTo(layers, |layers|, true)
  {
    hide DecodeRead, Resident, NextPow2, CodecFor, SharesKv;
    var ceiling := Ceiling(ctx, maxCtx);
    var shares := StackSharesKv(layers);
    read, held, global, windowed := 0, 0, 0, 0;
    for i := 0 to |layers|
      invariant read == ReadTo(layers, i, base, ctx)
    {
      var k := layers[i].kvSource;
      var src := layers[k];
      if !src.ownsKv { continue; }
      var seqLen := if src.window != 0 then Min(ctx, src.window) else ctx;
      var codec := if src.window != 0 then PLAIN_CODEC else CodecFor(k, |layers|, base, shares);
      read := read + DecodeRead(codec, ShapeOf(src, seqLen));
    }
    for i := 0 to |layers|
      invariant held == HeldTo(layers, i, base, ctx, maxCtx)
      invariant global == CountTo(layers, i, false) && windowed == CountTo(layers, i, true)
    {
      var l := layers[i];
      if !l.ownsKv { continue; }
      var cap, codec;
      if l.window != 0 {
        windowed := windowed + 1;
        cap, codec := l.window, PLAIN_CODEC;
      } else {
        global := global + 1;
        cap, codec := Min(NextPow2(ctx), ceiling), CodecFor(i, |layers|, base, shares);
      }
      held := held + Resident(codec, ShapeOf(l, cap), shares);
    }
  }

  // ---- a stack that shares nothing reads no more than it holds ---------------

  lemma CodecStays(idx: nat, layers: nat, base: Codec)
    requires Parsed(base) && Narrow(base)
    ensures var c := CodecFor(idx, layers, base, false);
      && Parsed(c) && Narrow(c)
      && (IsAffine(c.kind) ==> IsAffine(base.kind) && c.kGroup == base.kGroup && c.vGroup == base.vGroup)
  {
  }

  /** Whatever its length, a layer of this shape fills whole bytes and groups of an affine base. */
  predicate AlignedLayer(base: Codec, l: Layer) {
    IsAffine(base.kind) ==>
      && l.headDim * l.kvHeads % GroupOf(base.kGroup) == 0 && l.headDim * l.kvHeads % GroupOf(base.vGroup) == 0
      && l.headDim * l.kvHeads % 8 == 0
  }

  lemma MultipleDivides(n: nat, a: nat, d: nat)
    requires d > 0 && a % d == 0
    ensures (n * a) % d == 0
  {
    assert a == d * (a / d);
    assert n * a == d * (n * (a / d));
    Quotient(n * a, d, n * (a / d), 0);
    assert (n * a) % d == n * a - d * ((n * a) / d);
  }

  lemma AlignedAtEveryLength(c: Codec, base: Codec, l: Layer, seqLen: nat)
    requires IsAffine(c.kind) && IsAffine(base.kind) && AlignedLayer(base, l)
    requires c.kGroup == base.kGroup && c.vGroup == base.vGroup
    ensures Aligned(c, Elems(ShapeOf(l, seqLen)))
  {
    var row := l.headDim * l.kvHeads;
    var e := Elems(ShapeOf(l, seqLen));
    assert e == seqLen * row;
    MultipleDivides(seqLen, row, GroupOf(c.kGroup));
    MultipleDivides(seqLen, row, GroupOf(c.vGroup));
    MultipleDivides(seqLen * c.kBits, row, 8);
    MultipleDivides(seqLen * c.vBits, row, 8);
    assert e * c.kBits == seqLen * c.kBits * row && e * c.vBits == seqLen * c.vBits * row;
  }

  /** Bytes that rounding can cost a layer. */
  function Slack(base: Codec, l: Layer): nat {
    if AlignedLayer(base, l) || !IsAffine(base.kind) then 0 else 8
  }

  lemma LayerReadsWhatItHolds(layers: seq<Layer>, i: nat, base: Codec, ctx: nat, maxCtx: nat)
    requires Valid(layers) && i < |layers| && !SharesKv(layers) && Parsed(base) && Narrow(base)
    requires maxCtx == 0 || ctx <= maxCtx
    ensures LayerRead(layers, i, base, ctx) <= LayerHeld(layers, i, base, ctx, maxCtx) + Slack(base, layers[i])
  {
    hide Resident, DecodeRead, NextPow2, CodecFor, Parsed, Narrow, Elems;
    var l := layers[i];
    assert l.kvSource == i;
    if l.window != 0 {
      var short := ShapeOf(l, Min(ctx, l.window));
      assert Parsed(PLAIN_CODEC) && Narrow(PLAIN_CODEC) by { PlainIsParsed(); }
      ReadsWhatItHolds(PLAIN_CODEC, short);
      ResidentGrows(PLAIN_CODEC, short, l.window, false);
    } else {
      var c := CodecFor(i, |layers|, base, false);
      CodecStays(i, |layers|, base);
      ReadsWhatItHolds(c, ShapeOf(l, ctx));
      if IsAffine(c.kind) && AlignedLayer(base, l) { AlignedAtEveryLength(c, base, l, ctx); }
      NextPow2IsLeast(ctx);
      ResidentGrows(c, ShapeOf(l, ctx), Min(NextPow2(ctx), Ceiling(ctx, maxCtx)), false);
    }
  }

  lemma PlainIsParsed()
    ensures Parsed(PLAIN_CODEC) && Narrow(PLAIN_CODEC)
  {
  }

  function SlackTo(layers: seq<Layer>, n: nat, base: Codec): nat
    requires n <= |layers|
  {
    if n == 0 then 0 else SlackTo(layers, n - 1, base) + Slack(base, layers[n - 1])
  }

  /** One decode step reads no more than is held, but for the rounding of affine layers that are not aligned. */
  lemma {:induction false} ReadsNoMoreThanHeld(layers: seq<Layer>, n: nat, base: Codec, ctx: nat, maxCtx: nat)
    requires Valid(layers) && n <= |layers| && !SharesKv(layers) && Parsed(base) && Narrow(base)
    requires maxCtx == 0 || ctx <= maxCtx
    ensures ReadTo(layers, n, base, ctx) <= HeldTo(layers, n, base, ctx, maxCtx) + SlackTo(layers, n, base)
    ensures (forall i :: 0 <= i < n ==> AlignedLayer(base, layers[i])) ==> SlackTo(layers, n, base) == 0
  {
    hide LayerRead, LayerHeld, AlignedLayer, SharesKv, Parsed, Narrow;
    if n > 0 {
      ReadsNoMoreThanHeld(layers, n - 1, base, ctx, maxCtx);
      LayerReadsWhatItHolds(layers, n - 1, base, ctx, maxCtx);
    }
  }

  /** What is held never falls as the context grows, with or without a limit and with or without sharing. */
  lemma {:induction false} HeldGrows(layers: seq<Layer>, n: nat, base: Codec, a: nat, b: nat, maxCtx: nat)
    requires n <= |layers| && a <= b
    ensures HeldTo(layers, n, base, a, maxCtx) <= HeldTo(layers, n, base, b, maxCtx)
  {
    hide Resident, NextPow2, CodecFor, SharesKv;
    if n > 0 {
      HeldGrows(layers, n - 1, base, a, b, maxCtx);
      var l := layers[n - 1];
      var shares := SharesKv(layers);
      var c := CodecFor(n - 1, |layers|, base, shares);
      NextPow2Grows(a, b);
      ResidentGrows(c, ShapeOf(l, Min(NextPow2(a), Ceiling(a, maxCtx))), Min(NextPow2(b), Ceiling(b, maxCtx)), shares);
    }
  }
}
