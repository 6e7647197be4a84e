/** The byte model of a KV cache layer (scripts/profile/perf_ceiling.py). */
module KvBytes {
  import opened Chars
  import opened Powers

  const BF16 := 2
  const RING_SIDEBAND := 2
  const Q8_GROUP := 128
  const TURBO_GROUP := 32
  const FLOOR_BITS := 8

  datatype Kind =
    | Plain | K8V8 | K8V4 | Planar | Planar3 | PlanarK
    | K8VTurbo3 | K8VTurbo3Tcq | K8VTurbo2 | K8VTurbo2Tcq | TurboSym3 | TurboSym4
    | Iso3 | Iso4 | Iso3Sym | Iso4Sym | IsoKOnly3 | IsoKOnly4
    | Rotor3 | Rotor4 | Rotor3Sym | Rotor4Sym | RotorKOnly3 | RotorKOnly4
    | RotorK3Asym | RotorK4Asym | Mixed | RotK

  datatype Codec = Codec(kind: Kind, kBits: nat, vBits: nat, kGroup: nat, vGroup: nat)

  /** The widths of the codecs that `parse_codec` reads off a table. */
  function TableBits(kind: Kind): Option<(nat, nat)> {
    match kind
    case Plain => Some((16, 16))
    case K8V8 => Some((8, 8))
    case K8V4 | Planar | Iso4 | Rotor4 => Some((8, 4))
    case Planar3 | K8VTurbo3 | K8VTurbo3Tcq | Iso3 | Rotor3 => Some((8, 3))
    case PlanarK | IsoKOnly4 | RotorKOnly4 => Some((4, 16))
    case K8VTurbo2 | K8VTurbo2Tcq => Some((8, 2))
    case TurboSym3 | Iso3Sym | Rotor3Sym => Some((3, 3))
    case TurboSym4 | Iso4Sym | Rotor4Sym => Some((4, 4))
    case IsoKOnly3 | RotorKOnly3 => Some((3, 16))
    case _ => None
  }

  /** What `parse_codec` can return. */
  predicate Parsed(c: Codec) {
    match c.kind
    case Mixed => true
    case RotK => c.kBits == 8 && c.kGroup == 64
    case RotorK3Asym => c.kBits == 3 && c.kGroup == c.vGroup == 0
    case RotorK4Asym => c.kBits == 4 && c.kGroup == c.vGroup == 0
    case _ => TableBits(c.kind) == Some((c.kBits, c.vBits)) && c.kGroup == c.vGroup == 0
  }

  const K8V8_CODEC := Codec(K8V8, 8, 8, 0, 0)
  const PLAIN_CODEC := Codec(Plain, 16, 16, 0, 0)

  // ---- the predicates of the kinds -------------------------------------------

  /** `_READS_PACKED` and `_MIRROR_FOLLOWS_SHARES_KV`: the affine stores. */
  predicate IsAffine(kind: Kind) {
    kind == Mixed || kind == RotK
  }

  predicate IsSym(kind: Kind) {
    kind == Iso3Sym || kind == Iso4Sym || kind == Rotor3Sym || kind == Rotor4Sym
  }

  predicate IsKOnly(kind: Kind) {
    kind == IsoKOnly3 || kind == IsoKOnly4 || kind == RotorKOnly3 || kind == RotorKOnly4
  }

  predicate FeedsK(kind: Kind, sharesKv: bool) {
    if IsKOnly(kind) || IsSym(kind) then false else if IsAffine(kind) then sharesKv else true
  }

  predicate FeedsV(kind: Kind, sharesKv: bool) {
    if IsSym(kind) then false else if IsAffine(kind) then sharesKv else true
  }

  predicate IsIsoRing(kind: Kind) {
    kind == Iso3Sym || kind == Iso4Sym || kind == IsoKOnly3 || kind == IsoKOnly4
  }

  predicate IsIso(kind: Kind) {
    IsIsoRing(kind) || kind == Iso3 || kind == Iso4
  }

  predicate IsRotor(kind: Kind) {
    || kind == Rotor3 || kind == Rotor4 || kind == Rotor3Sym || kind == Rotor4Sym
    || kind == RotorKOnly3 || kind == RotorKOnly4 || kind == RotorK3Asym || kind == RotorK4Asym
  }

  predicate IsPlanar(kind: Kind) {
    kind == Planar || kind == Planar3 || kind == PlanarK
  }

  predicate InKFamily(kind: Kind) {
    kind == PlanarK || IsSym(kind) || IsKOnly(kind) || kind == RotorK3Asym || kind == RotorK4Asym
  }

  predicate InVFamily(kind: Kind) {
    || kind == Planar || kind == Planar3 || kind == Iso3 || kind == Iso4
    || kind == Rotor3 || kind == Rotor4 || IsSym(kind)
  }

  /** `decode_reads_packed_store`. */
  predicate ReadsStore(kind: Kind) {
    IsAffine(kind) || IsKOnly(kind) || IsSym(kind)
  }

  /** `materialises_packed_store`. */
  predicate Materialises(kind: Kind) {
    ReadsStore(kind) || !FeedsK(kind, false) || !FeedsV(kind, false)
  }

  // ---- bytes -----------------------------------------------------------------

  function CeilDiv(a: nat, d: nat): nat
    requires d > 0
  {
    (a + d - 1) / d
  }

  /** `_plane_bytes`: rows of codes, each padded to whole words. */
  function PlaneBytes(codes: nat, bits: nat, tokens: nat): nat {
    CeilDiv(codes * bits, 32) * 4 * tokens
  }

  function GroupOf(group: nat): (g: nat)
    ensures g > 0
  {
    if group == 0 then 64 else group
  }

  function Floor(a: nat, d: nat): nat
    requires d > 0
  {
    a / d
  }

  /** `_affine_side_bytes`: codes and 32 bits of scale and bias a group, rounded down once. */
  function AffineRead(bits: nat, group: nat, elems: nat): nat {
    Floor(elems * (bits * GroupOf(group) + 32), 8 * GroupOf(group))
  }

  function Scales(c: Codec, bits: nat, elems: nat, group: nat): nat {
    if IsAffine(c.kind) then elems / GroupOf(group) * 2 * BF16
    else if bits == 8 then elems / Q8_GROUP * 4
    else elems / TURBO_GROUP * 4
  }

  function PlanarBytes(elems: nat): nat {
    elems / TURBO_GROUP * 4 * 4 + elems / 2 * 4 + elems / TURBO_GROUP * 2 * 4
  }

  function IsoRingBytes(plane: nat, elems: nat, tokens: nat): nat {
    plane + elems / 4 * RING_SIDEBAND + tokens * RING_SIDEBAND
  }

  function IsoBlockBytes(plane: nat, elems: nat, tokens: nat): nat {
    plane + elems / 4 * (4 + 16) + tokens * 4
  }

  function RotorBytes(plane: nat, groups: nat, tokens: nat): nat {
    plane + groups * tokens * RING_SIDEBAND + tokens * RING_SIDEBAND
  }

  /** The stored bytes of one side, without the mirror. */
  function Stored(c: Codec, bits: nat, elems: nat, tokens: nat, headDim: nat, family: bool, group: nat): nat {
    if family && IsPlanar(c.kind) then PlanarBytes(elems)
    else if family && IsIso(c.kind) then
      if IsIsoRing(c.kind) then IsoRingBytes(PlaneBytes(headDim, bits, tokens), elems, tokens)
      else IsoBlockBytes(PlaneBytes(headDim, bits, tokens), elems, tokens)
    else if family && IsRotor(c.kind) then
      var groups := CeilDiv(headDim, 3);
      RotorBytes(PlaneBytes(groups * 3, bits, tokens), groups, tokens)
    else elems * bits / 8 + Scales(c, bits, elems, group)
  }

  /** `_side_bytes`. */
  function SideBytes(c: Codec, bits: nat, elems: nat, tokens: nat, headDim: nat, family: bool, seed: bool,
                     group: nat): nat
  {
    if bits >= 16 then elems * BF16
    else Stored(c, bits, elems, tokens, headDim, family, group) + if seed then elems * BF16 else 0
  }

  /** The shape of one layer's cache. */
  datatype Shape = Shape(seqLen: nat, headDim: nat, kvHeads: nat)

  function Elems(s: Shape): nat {
    s.seqLen * s.headDim * s.kvHeads
  }

  function Rows(s: Shape): nat {
    s.seqLen * s.kvHeads
  }

  /** `resident_bytes_per_layer`. */
  function Resident(c: Codec, s: Shape, sharesKv: bool): nat {
    if c.kind == Plain || !Materialises(c.kind) then Elems(s) * BF16 * 2
    else
      SideBytes(c, c.kBits, Elems(s), Rows(s), s.headDim, InKFamily(c.kind), FeedsK(c.kind, sharesKv), c.kGroup)
      + SideBytes(c, c.vBits, Elems(s), Rows(s), s.headDim, InVFamily(c.kind), FeedsV(c.kind, sharesKv), c.vGroup)
  }

  /** `decode_read_bytes_per_layer`. */
  function DecodeRead(c: Codec, s: Shape): nat {
    if c.kind == Plain then Elems(s) * BF16 * 2
    else if IsAffine(c.kind) then AffineRead(c.kBits, c.kGroup, Elems(s)) + AffineRead(c.vBits, c.vGroup, Elems(s))
    else
      (if FeedsK(c.kind, false) then Elems(s) * BF16
       else SideBytes(c, c.kBits, Elems(s), Rows(s), s.headDim, InKFamily(c.kind), false, c.kGroup))
      + (if FeedsV(c.kind, false) then Elems(s) * BF16
         else SideBytes(c, c.vBits, Elems(s), Rows(s), s.headDim, InVFamily(c.kind), false, c.vGroup))
  }

  /** `boundary_floor`. */
  function BoundaryFloor(c: Codec, sharesKv: bool): Codec {
    var target :=
      if c.kind == Mixed then Codec(Mixed, Max(c.kBits, FLOOR_BITS), Max(c.vBits, FLOOR_BITS), c.kGroup, c.vGroup)
      else if c.kind == RotK then Codec(RotK, 8, Max(c.vBits, FLOOR_BITS), 64, c.vGroup)
      else K8V8_CODEC;
    if FeedsK(target.kind, sharesKv) && FeedsV(target.kind, sharesKv) then K8V8_CODEC else target
  }

  function Max(a: nat, b: nat): nat {
    if a < b then b else a
  }

  // ---- what a layer reads against what it holds ------------------------------

  /** Rounding once against rounding codes and scales apart: at most four bytes, none where both divide. */
  lemma AffineSide(bits: nat, group: nat, elems: nat)
    ensures var stored := elems * bits / 8 + elems / GroupOf(group) * 4;
      && stored <= AffineRead(bits, group, elems) <= stored + 4
      && (elems % GroupOf(group) == 0 && elems * bits % 8 == 0 ==> AffineRead(bits, group, elems) == stored)
  {
    var g := GroupOf(group);
    RoundedOnce(elems * bits, elems, g);
    assert elems * (bits * g + 32) == (elems * bits) * g + 32 * elems;
  }

  lemma RoundedOnce(a: nat, elems: nat, g: nat)
    requires g > 0
    ensures var r := (a * g + 32 * elems) / (8 * g);
      var stored := a / 8 + elems / g * 4;
      && stored <= r <= stored + 4 && (elems % g == 0 && a % 8 == 0 ==> r == stored)
  {
    var x, y := a / 8, elems / g;
    var p, q := a % 8, elems % g;
    assert elems == g * y + q;
    SplitTotal(x, p, y, q, g);
    RestIsSmall(p, q, g);
    Quotient(a * g + 32 * elems, 8 * g, x + 4 * y, p * g + 32 * q);
  }

  lemma SplitTotal(x: nat, p: nat, y: nat, q: nat, g: nat)
    ensures (8 * x + p) * g + 32 * (g * y + q) == 8 * g * (x + 4 * y) + (p * g + 32 * q)
  {
    assert (8 * x + p) * g == 8 * (x * g) + p * g;
    assert 8 * g * (x + 4 * y) == 8 * (x * g) + 32 * (g * y);
  }

  lemma RestIsSmall(p: nat, q: nat, g: nat)
    requires p < 8 && q < g
    ensures 0 <= p * g + 32 * q < 5 * (8 * g)
  {
    Times(p, 7, g);
  }

  lemma Quotient(total: nat, d: nat, q: nat, rest: nat)
    requires d > 0 && total == d * q + rest && rest < 5 * d
    ensures q <= total / d <= q + 4
    ensures rest == 0 ==> total / d == q
  {
    var r := total / d;
    assert d * r <= total < d * (r + 1);
    if r < q { Times(r + 1, q, d); }
    if r > q + 4 { Times(q + 5, r, d); }
    if rest == 0 && r > q { Times(q + 1, r, d); }
  }

  /** The codes and scales of both axes fill whole bytes and groups. */
  predicate Aligned(c: Codec, elems: nat) {
    && elems % GroupOf(c.kGroup) == 0 && elems * c.kBits % 8 == 0
    && elems % GroupOf(c.vGroup) == 0 && elems * c.vBits % 8 == 0
  }

  predicate Narrow(c: Codec) {
    IsAffine(c.kind) ==> c.kBits < 16 && c.vBits < 16
  }

  lemma FloorExceeds(a: nat, d: nat, n: nat)
    requires d > 0
    ensures a / d > n <==> a >= d * (n + 1)
    ensures a / d >= n <==> a >= d * n
  {
    var q, rest := a / d, a % d;
    assert a == d * q + rest;
    if q > n { Times(n + 1, q, d); } else { Times(q + 1, n + 1, d); }
    if q >= n { Times(n, q, d); } else { Times(q + 1, n, d); }
  }

  /** An affine side of sixteen bits or more is held as bf16 but read as codes and scales: never less, and more
      exactly when the bits over sixteen and the scales come to a byte. */
  lemma WideSideReadsMore(bits: nat, group: nat, elems: nat)
    requires bits >= 16
    ensures AffineRead(bits, group, elems) >= elems * BF16
    ensures AffineRead(bits, group, elems) > elems * BF16
      <==> elems * ((bits - 16) * GroupOf(group) + 32) >= 8 * GroupOf(group)
  {
    var g := GroupOf(group);
    var over := (bits - 16) * g + 32;
    assert bits * g + 32 == 16 * g + over;
    assert elems * (16 * g + over) == 8 * g * (elems * BF16) + elems * over;
    assert 8 * g * (elems * BF16 + 1) == 8 * g * (elems * BF16) + 8 * g;
    FloorExceeds(elems * (bits * g + 32), 8 * g, elems * BF16);
  }

  /** What an unshared layer holds of one affine side. */
  function AffineHeld(bits: nat, group: nat, elems: nat): nat {
    if bits >= 16 then elems * BF16 else elems * bits / 8 + elems / GroupOf(group) * 4
  }

  lemma AffineStored(c: Codec, bits: nat, elems: nat, tokens: nat, headDim: nat, family: bool, group: nat)
    requires IsAffine(c.kind)
    ensures SideBytes(c, bits, elems, tokens, headDim, family, false, group) == AffineHeld(bits, group, elems)
  {
    hide PlanarBytes, IsoRingBytes, IsoBlockBytes, RotorBytes, PlaneBytes, CeilDiv;
  }

  lemma AffineResident(c: Codec, s: Shape)
    requires IsAffine(c.kind)
    ensures Resident(c, s, false) == AffineHeld(c.kBits, c.kGroup, Elems(s)) + AffineHeld(c.vBits, c.vGroup, Elems(s))
  {
    AffineStored(c, c.kBits, Elems(s), Rows(s), s.headDim, InKFamily(c.kind), c.kGroup);
    AffineStored(c, c.vBits, Elems(s), Rows(s), s.headDim, InVFamily(c.kind), c.vGroup);
    hide Elems, Rows, Stored, AffineHeld, InKFamily, InVFamily;
  }

  lemma OthersReadWhatTheyHold(c: Codec, s: Shape)
    requires Parsed(c) && !IsAffine(c.kind)
    ensures DecodeRead(c, s) == Resident(c, s, false)
  {
    hide Elems, Rows, Stored;
  }

  /** A decode step reads what an unshared layer holds: exactly, but for at most four bytes a side that an affine
      store rounds away. */
  lemma ReadsWhatItHolds(c: Codec, s: Shape)
    requires Parsed(c) && Narrow(c)
    ensures Resident(c, s, false) <= DecodeRead(c, s) <= Resident(c, s, false) + if IsAffine(c.kind) then 8 else 0
    ensures !IsAffine(c.kind) || Aligned(c, Elems(s)) ==> DecodeRead(c, s) == Resident(c, s, false)
  {
    if IsAffine(c.kind) {
      AffineSide(c.kBits, c.kGroup, Elems(s));
      AffineSide(c.vBits, c.vGroup, Elems(s));
      AffineResident(c, s);
    } else {
      OthersReadWhatTheyHold(c, s);
    }
    hide Elems, AffineRead, Resident, Parsed;
  }

  lemma ReadsAtLeastHeld(bits: nat, group: nat, elems: nat)
    ensures AffineRead(bits, group, elems) >= AffineHeld(bits, group, elems)
  {
    hide AffineRead;
    if bits >= 16 { WideSideReadsMore(bits, group, elems); } else { AffineSide(bits, group, elems); }
  }

  /** Eight groups of a wide side are read as at least 32 bytes more than they are held in. */
  lemma WideGroups(bits: nat, group: nat)
    requires bits >= 16
    ensures AffineRead(bits, group, 8 * GroupOf(group)) >= AffineHeld(bits, group, 8 * GroupOf(group)) + 32
  {
    var g := GroupOf(group);
    assert 8 * g * (bits * g + 32) == 8 * g * (bits * g + 32) + 0;
    FloorExceeds(8 * g * (bits * g + 32), 8 * g, bits * g + 32);
    Times(16, bits, g);
  }

  /** The slack of eight bytes holds at every shape exactly for the codecs without a wide affine side. */
  lemma SlackIffNarrow(c: Codec)
    requires Parsed(c)
    ensures Narrow(c) <==> forall s :: DecodeRead(c, s) <= Resident(c, s, false) + 8
  {
    hide AffineRead, AffineHeld;
    if Narrow(c) {
      forall s
        ensures DecodeRead(c, s) <= Resident(c, s, false) + 8
      {
        ReadsWhatItHolds(c, s);
      }
    } else {
      var g := if c.kBits >= 16 then c.kGroup else c.vGroup;
      var s := Shape(8 * GroupOf(g), 1, 1);
      AffineResident(c, s);
      ReadsAtLeastHeld(c.kBits, c.kGroup, Elems(s));
      ReadsAtLeastHeld(c.vBits, c.vGroup, Elems(s));
      WideGroups(if c.kBits >= 16 then c.kBits else c.vBits, g);
      hide Resident;
      assert Elems(s) == 8 * GroupOf(g);
      assert DecodeRead(c, s) > Resident(c, s, false) + 8;
    }
  }

  /** Sharing adds one bf16 mirror for each side of an affine store narrower than sixteen bits, and nothing to
      any other codec. */
  lemma SharingAddsMirrors(c: Codec, s: Shape)
    ensures Resident(c, s, true) == Resident(c, s, false)
      + (if IsAffine(c.kind) && c.kBits < 16 then Elems(s) * BF16 else 0)
      + (if IsAffine(c.kind) && c.vBits < 16 then Elems(s) * BF16 else 0)
  {
    hide Elems, Stored, PlaneBytes;
  }

  // ---- growth with the sequence ----------------------------------------------

  lemma PlaneGrows(codes: nat, bits: nat, a: nat, b: nat)
    requires a <= b
    ensures PlaneBytes(codes, bits, a) <= PlaneBytes(codes, bits, b)
  {
    Times(a, b, CeilDiv(codes * bits, 32) * 4);
  }

  /** Bytes of the planar, iso, rotor and grouped stores, one by one. */
  lemma PlanarGrows(e: nat, e': nat)
    requires e <= e'
    ensures PlanarBytes(e) <= PlanarBytes(e')
  {
    DivGrows(e, e', TURBO_GROUP);
  }

  lemma IsoGrows(e: nat, e': nat, t: nat, t': nat, plane: nat, plane': nat)
    requires e <= e' && t <= t' && plane <= plane'
    ensures IsoRingBytes(plane, e, t) <= IsoRingBytes(plane', e', t')
    ensures IsoBlockBytes(plane, e, t) <= IsoBlockBytes(plane', e', t')
  {
    DivGrows(e, e', 4);
  }

  lemma RotorGrows(groups: nat, t: nat, t': nat, plane: nat, plane': nat)
    requires t <= t' && plane <= plane'
    ensures RotorBytes(plane, groups, t) <= RotorBytes(plane', groups, t')
  {
    Times(t, t', groups);
  }

  lemma CodesGrow(bits: nat, e: nat, e': nat)
    requires e <= e'
    ensures e * bits / 8 <= e' * bits / 8
  {
    Times(e, e', bits);
    DivGrows(e * bits, e' * bits, 8);
  }

  lemma ScalesGrow(c: Codec, bits: nat, e: nat, e': nat, group: nat)
    requires e <= e'
    ensures Scales(c, bits, e, group) <= Scales(c, bits, e', group)
  {
    hide IsAffine;
    DivGrows(e, e', GroupOf(group));
    DivGrows(e, e', Q8_GROUP);
    DivGrows(e, e', TURBO_GROUP);
  }

  lemma StoredGrows(c: Codec, bits: nat, e: nat, e': nat, t: nat, t': nat, headDim: nat, family: bool, group: nat)
    requires e <= e' && t <= t'
    ensures Stored(c, bits, e, t, headDim, family, group) <= Stored(c, bits, e', t', headDim, family, group)
  {
    hide PlanarBytes, IsoRingBytes, IsoBlockBytes, RotorBytes, PlaneBytes, CeilDiv, Scales, IsPlanar, IsIso,
      IsIsoRing, IsRotor;
    if family && IsPlanar(c.kind) {
      PlanarGrows(e, e');
    } else if family && IsIso(c.kind) {
      PlaneGrows(headDim, bits, t, t');
      IsoGrows(e, e', t, t', PlaneBytes(headDim, bits, t), PlaneBytes(headDim, bits, t'));
    } else if family && IsRotor(c.kind) {
      var groups := CeilDiv(headDim, 3);
      PlaneGrows(groups * 3, bits, t, t');
      RotorGrows(groups, t, t', PlaneBytes(groups * 3, bits, t), PlaneBytes(groups * 3, bits, t'));
    } else {
      CodesGrow(bits, e, e');
      ScalesGrow(c, bits, e, e', group);
    }
  }

  lemma ShapeGrows(s: Shape, longer: nat)
    requires s.seqLen <= longer
    ensures Elems(s) <= Elems(s.(seqLen := longer)) && Rows(s) <= Rows(s.(seqLen := longer))
  {
    Times(s.seqLen, longer, s.headDim);
    Times(s.seqLen * s.headDim, longer * s.headDim, s.kvHeads);
    Times(s.seqLen, longer, s.kvHeads);
  }

  lemma ResidentGrows(c: Codec, s: Shape, longer: nat, sharesKv: bool)
    requires s.seqLen <= longer
    ensures Resident(c, s, sharesKv) <= Resident(c, s.(seqLen := longer), sharesKv)
  {
    hide Stored, Elems, Rows;
    var l := s.(seqLen := longer);
    ShapeGrows(s, longer);
    StoredGrows(c, c.kBits, Elems(s), Elems(l), Rows(s), Rows(l), s.headDim, InKFamily(c.kind), c.kGroup);
    StoredGrows(c, c.vBits, Elems(s), Elems(l), Rows(s), Rows(l), s.headDim, InVFamily(c.kind), c.vGroup);
  }

  // ---- the capacity ----------------------------------------------------------

  /** `next_pow2`. */
  function NextPow2(n: nat): nat {
    if n <= 1 then 1 else Pow2(BitLength(n - 1))
  }

  /** It is a power of two, at least `n`, and no smaller power is. */
  lemma NextPow2IsLeast(n: nat)
    ensures n <= NextPow2(n) && exists e: nat :: NextPow2(n) == Pow2(e)
    ensures forall e: nat :: n <= Pow2(e) ==> NextPow2(n) <= Pow2(e)
  {
    if n <= 1 {
      assert NextPow2(n) == Pow2(0);
    } else {
      BitLengthBounds(n - 1);
      var l := BitLength(n - 1);
      forall e: nat | n <= Pow2(e)
        ensures NextPow2(n) <= Pow2(e)
      {
        if e < l { Pow2Grows(e, l - 1); }
        if e >= l { Pow2Grows(l, e); }
      }
    }
  }

  lemma NextPow2Grows(a: nat, b: nat)
    requires a <= b
    ensures NextPow2(a) <= NextPow2(b)
  {
    NextPow2IsLeast(a);
    NextPow2IsLeast(b);
  }
}
