/**
  The script-side npc record as it travels through the save stream: a fixed
  list of fields, written in one order and read back in the same order.
  The record's layout is described once, as a schema of field kinds, and the
  round trip is proved for any schema.
 */
module NpcRecord {
  import opened Util
  import opened Bytes
  import opened Serialize

  /** How one field is encoded. Arrays are written element by element,
      without a length. */
  datatype Kind = KU32 | KI32 | KStr | KI32s(n: nat) | KStrs(n: nat)

  datatype Field =
    | U32F(u: u32)
    | I32F(i: int)
    | StrF(s: seq<byte>)
    | I32sF(xs: seq<int>)
    | StrsF(ss: seq<seq<byte>>)

  /** A field value the encoding of kind `k` can carry without loss. */
  predicate Fits(f: Field, k: Kind) {
    match k
    case KU32 => f.U32F?
    case KI32 => f.I32F? && IsI32(f.i)
    case KStr => f.StrF? && |f.s| < TWO32
    case KI32s(n) => f.I32sF? && |f.xs| == n && forall j :: 0 <= j < n ==> IsI32(f.xs[j])
    case KStrs(n) => f.StrsF? && |f.ss| == n && forall j :: 0 <= j < n ==> |f.ss[j]| < TWO32
  }

  /** Field values shaped like kind `k`, whatever their range. */
  predicate Shaped(f: Field, k: Kind) {
    match k
    case KU32 => f.U32F?
    case KI32 => f.I32F?
    case KStr => f.StrF?
    case KI32s(n) => f.I32sF? && |f.xs| == n
    case KStrs(n) => f.StrsF? && |f.ss| == n
  }

  predicate Conforms(fs: seq<Field>, ks: seq<Kind>) {
    |fs| == |ks| && forall j :: 0 <= j < |fs| ==> Shaped(fs[j], ks[j])
  }

  predicate FitsAll(fs: seq<Field>, ks: seq<Kind>) {
    |fs| == |ks| && forall j :: 0 <= j < |fs| ==> Fits(fs[j], ks[j])
  }

  function WriteI32s(xs: seq<int>): (r: seq<byte>)
    requires forall j :: 0 <= j < |xs| ==> IsI32(xs[j])
    ensures |r| == 4 * |xs|
  {
    if xs == [] then [] else WriteI32(xs[0]) + WriteI32s(xs[1..])
  }

  function ReadI32s(s: seq<byte>, n: nat): (r: Option<(seq<int>, seq<byte>)>)
    ensures r.None? <==> |s| < 4 * n
    ensures r.Some? ==> |r.value.0| == n && r.value.1 == s[4 * n..]
    ensures r.Some? ==> forall j :: 0 <= j < n ==> IsI32(r.value.0[j])
  {
    if n == 0 then Some(([], s))
    else match ReadI32(s)
      case None => None
      case Some((x, rest)) =>
        match ReadI32s(rest, n - 1)
        case None => None
        case Some((xs, rest')) => Some(([x] + xs, rest'))
  }

  lemma {:induction false} I32sRoundTrip(xs: seq<int>, rest: seq<byte>)
    requires forall j :: 0 <= j < |xs| ==> IsI32(xs[j])
    ensures ReadI32s(WriteI32s(xs) + rest, |xs|) == Some((xs, rest))
    decreases |xs|
  {
    if xs != [] {
      var tail := WriteI32s(xs[1..]) + rest;
      assert WriteI32s(xs) + rest == WriteI32(xs[0]) + tail;
      I32RoundTrip(xs[0], tail);
      I32sRoundTrip(xs[1..], rest);
      assert [xs[0]] + xs[1..] == xs;
    } else {
      assert WriteI32s(xs) + rest == rest;
    }
  }

  function WriteStrs(ss: seq<seq<byte>>): (r: seq<byte>)
    ensures |r| >= 4 * |ss|
  {
    if ss == [] then [] else WriteString(ss[0]) + WriteStrs(ss[1..])
  }

  function ReadStrs(s: seq<byte>, n: nat): (r: Option<(seq<seq<byte>>, seq<byte>)>)
    ensures r.Some? ==> |r.value.0| == n && |r.value.1| <= |s|
  {
    if n == 0 then Some(([], s))
    else match ReadString(s)
      case None => None
      case Some((x, rest)) =>
        match ReadStrs(rest, n - 1)
        case None => None
        case Some((xs, rest')) => Some(([x] + xs, rest'))
  }

  lemma {:induction false} StrsRoundTrip(ss: seq<seq<byte>>, rest: seq<byte>)
    requires forall j :: 0 <= j < |ss| ==> |ss[j]| < TWO32
    ensures ReadStrs(WriteStrs(ss) + rest, |ss|) == Some((ss, rest))
    decreases |ss|
  {
    if ss != [] {
      var tail := WriteStrs(ss[1..]) + rest;
      assert WriteStrs(ss) + rest == WriteString(ss[0]) + tail;
      StringRoundTrip(ss[0], tail);
      StrsRoundTrip(ss[1..], rest);
      assert ReadString(WriteStrs(ss) + rest) == Some((ss[0], tail));
      assert ReadStrs(tail, |ss| - 1) == Some((ss[1..], rest));
      assert [ss[0]] + ss[1..] == ss;
    } else {
      assert WriteStrs(ss) + rest == rest;
    }
  }

  function WriteField(f: Field, k: Kind): (r: seq<byte>)
    requires Fits(f, k)
  {
    match k
    case KU32 => WriteU32(f.u)
    case KI32 => WriteI32(f.i)
    case KStr => WriteString(f.s)
    case KI32s(_) => WriteI32s(f.xs)
    case KStrs(_) => WriteStrs(f.ss)
  }

  function ReadField(s: seq<byte>, k: Kind): (r: Option<(Field, seq<byte>)>)
    ensures r.Some? ==> Shaped(r.value.0, k) && |r.value.1| <= |s|
  {
    match k
    case KU32 => (match ReadU32(s) case None => None case Some((v, rest)) => Some((U32F(v), rest)))
    case KI32 => (match ReadI32(s) case None => None case Some((v, rest)) => Some((I32F(v), rest)))
    case KStr => (match ReadString(s) case None => None case Some((v, rest)) => Some((StrF(v), rest)))
    case KI32s(n) => (match ReadI32s(s, n) case None => None case Some((v, rest)) => Some((I32sF(v), rest)))
    case KStrs(n) => (match ReadStrs(s, n) case None => None case Some((v, rest)) => Some((StrsF(v), rest)))
  }

  lemma {:induction false} FieldRoundTrip(f: Field, k: Kind, rest: seq<byte>)
    requires Fits(f, k)
    ensures ReadField(WriteField(f, k) + rest, k) == Some((f, rest))
  {
    match k
    case KU32 => U32RoundTrip(f.u, rest);
    case KI32 => I32RoundTrip(f.i, rest);
    case KStr => StringRoundTrip(f.s, rest);
    case KI32s(_) => I32sRoundTrip(f.xs, rest);
    case KStrs(_) => StrsRoundTrip(f.ss, rest);
  }

  /** The fields one after another, each in its own encoding. */
  function WriteFields(fs: seq<Field>, ks: seq<Kind>): (r: seq<byte>)
    requires FitsAll(fs, ks)
    decreases |fs|
  {
    if fs == [] then [] else WriteField(fs[0], ks[0]) + WriteFields(fs[1..], ks[1..])
  }

  /** Reading the fields a schema lists, in the schema's order. */
  function ReadFields(s: seq<byte>, ks: seq<Kind>): (r: Option<(seq<Field>, seq<byte>)>)
    ensures r.Some? ==> Conforms(r.value.0, ks)
    decreases |ks|
  {
    if ks == [] then Some(([], s))
    else match ReadField(s, ks[0])
      case None => None
      case Some((f, rest)) =>
        match ReadFields(rest, ks[1..])
        case None => None
        case Some((fs, rest')) => Some(([f] + fs, rest'))
  }

  lemma FitsAllTail(fs: seq<Field>, ks: seq<Kind>)
    requires FitsAll(fs, ks) && fs != []
    ensures FitsAll(fs[1..], ks[1..])
  {
    forall j | 0 <= j < |fs| - 1 ensures Fits(fs[1..][j], ks[1..][j]) {
      assert Fits(fs[j + 1], ks[j + 1]);
    }
  }

  /** Reading a schema is reading its first field, then the rest. */
  lemma ReadFieldsCons(s: seq<byte>, ks: seq<Kind>, f: Field, tail: seq<byte>, fs: seq<Field>, rest: seq<byte>)
    requires ks != [] && ReadField(s, ks[0]) == Some((f, tail)) && ReadFields(tail, ks[1..]) == Some((fs, rest))
    ensures ReadFields(s, ks) == Some(([f] + fs, rest))
  {
  }

  lemma {:induction false} FieldsRoundTrip(fs: seq<Field>, ks: seq<Kind>, rest: seq<byte>)
    requires FitsAll(fs, ks)
    ensures ReadFields(WriteFields(fs, ks) + rest, ks) == Some((fs, rest))
    decreases |fs|
  {
    if fs != [] {
      FitsAllTail(fs, ks);
      var tail := WriteFields(fs[1..], ks[1..]) + rest;
      var s := WriteFields(fs, ks) + rest;
      assert ReadField(s, ks[0]) == Some((fs[0], tail)) by {
        assert s == WriteField(fs[0], ks[0]) + tail;
        FieldRoundTrip(fs[0], ks[0], tail);
      }
      assert ReadFields(tail, ks[1..]) == Some((fs[1..], rest)) by {
        FieldsRoundTrip(fs[1..], ks[1..], rest);
      }
      ReadFieldsCons(s, ks, fs[0], tail, fs[1..], rest);
      assert [fs[0]] + fs[1..] == fs;
    } else {
      assert WriteFields(fs, ks) + rest == rest;
    }
  }

  /** Fixed-size arrays of the record. */
  type Ints5 = xs: seq<int> | |xs| == 5 witness [0, 0, 0, 0, 0]
  type Ints8 = xs: seq<int> | |xs| == 8 witness [0, 0, 0, 0, 0, 0, 0, 0]
  type Ints100 = xs: seq<int> | |xs| == 100 witness seq(100, _ => 0)
  type Strs5 = ss: seq<seq<byte>> | |ss| == 5 witness [[], [], [], [], []]

  /** A field's value, or a neutral one when the field has another shape
      (which a conforming list never has). */
  function AsU32(f: Field): u32 { if f.U32F? then f.u else 0 }
  function AsI32(f: Field): int { if f.I32F? then f.i else 0 }
  function AsStr(f: Field): seq<byte> { if f.StrF? then f.s else [] }
  function AsInts(f: Field, n: nat): (xs: seq<int>)
    ensures |xs| == n
  {
    if f.I32sF? && |f.xs| == n then f.xs else seq(n, _ => 0)
  }
  function AsStrs(f: Field, n: nat): (ss: seq<seq<byte>>)
    ensures |ss| == n
  {
    if f.StrsF? && |f.ss| == n then f.ss else seq(n, _ => [])
  }

  /** The script engine's npc record, reduced to the fields the save stream
      carries, in the order it carries them. Integer fields hold `int32_t`
      values; the instance symbol is a `size_t`. */
  datatype CNpc = CNpc(
    instanceSymbol: u64,
    id: int,
    name: Strs5,
    slot: seq<byte>,
    effect: seq<byte>,
    npcType: int,
    flags: int,
    attribute: Ints8,
    hitChance: Ints5,
    protection: Ints8,
    damage: Ints8,
    damagetype: int,
    guild: int,
    level: int,
    mission: Ints5,
    fightTactic: int,
    weapon: int,
    voice: int,
    voicePitch: int,
    bodymass: int,
    dailyRoutine: int,
    startAiState: int,
    spawnPoint: seq<byte>,
    spawnDelay: int,
    senses: int,
    sensesRange: int,
    aivar: Ints100,
    wp: seq<byte>,
    exp: int,
    expNext: int,
    lp: int,
    bodyStateInterruptableOverride: int,
    noFocus: int)

  /** The kinds of the record's fields in stream order. */
  const NpcSchema: seq<Kind> := [
    KU32, KI32, KStrs(5), KStr, KStr, KI32,
    KI32, KI32s(8), KI32s(5), KI32s(8), KI32s(8), KI32,
    KI32, KI32, KI32s(5), KI32, KI32, KI32,
    KI32, KI32, KI32, KI32, KStr, KI32,
    KI32, KI32, KI32s(100), KStr, KI32, KI32,
    KI32, KI32, KI32]

  /** A record whose every value fits its encoding: int32 fields in range
      and strings shorter than 2^32 bytes. The instance symbol may be any
      `size_t`, as it is cut to 32 bits on the way out. */
  predicate Storable(h: CNpc) {
    FitsAll(ToFields(h), NpcSchema)
  }

  /** The values the writer emits, in its order. */
  function ToFields(h: CNpc): (fs: seq<Field>)
    ensures Conforms(fs, NpcSchema)
  {
    [
      U32F(h.instanceSymbol % TWO32),
      I32F(h.id),
      StrsF(h.name),
      StrF(h.slot),
      StrF(h.effect),
      I32F(h.npcType),
      I32F(h.flags),
      I32sF(h.attribute),
      I32sF(h.hitChance),
      I32sF(h.protection),
      I32sF(h.damage),
      I32F(h.damagetype),
      I32F(h.guild),
      I32F(h.level),
      I32sF(h.mission),
      I32F(h.fightTactic),
      I32F(h.weapon),
      I32F(h.voice),
      I32F(h.voicePitch),
      I32F(h.bodymass),
      I32F(h.dailyRoutine),
      I32F(h.startAiState),
      StrF(h.spawnPoint),
      I32F(h.spawnDelay),
      I32F(h.senses),
      I32F(h.sensesRange),
      I32sF(h.aivar),
      StrF(h.wp),
      I32F(h.exp),
      I32F(h.expNext),
      I32F(h.lp),
      I32F(h.bodyStateInterruptableOverride),
      I32F(h.noFocus)
    ]
  }

  /** The record the reader fills, taking the values in its order. */
  function FromFields(fs: seq<Field>): (h: CNpc)
    requires |fs| == |NpcSchema|
    ensures h.instanceSymbol < TWO32
    ensures Conforms(fs, NpcSchema) ==> ToFields(h) == fs
  {
    var h := CNpc(
      AsU32(fs[0]),
      AsI32(fs[1]),
      AsStrs(fs[2], 5),
      AsStr(fs[3]),
      AsStr(fs[4]),
      AsI32(fs[5]),
      AsI32(fs[6]),
      AsInts(fs[7], 8),
      AsInts(fs[8], 5),
      AsInts(fs[9], 8),
      AsInts(fs[10], 8),
      AsI32(fs[11]),
      AsI32(fs[12]),
      AsI32(fs[13]),
      AsInts(fs[14], 5),
      AsI32(fs[15]),
      AsI32(fs[16]),
      AsI32(fs[17]),
      AsI32(fs[18]),
      AsI32(fs[19]),
      AsI32(fs[20]),
      AsI32(fs[21]),
      AsStr(fs[22]),
      AsI32(fs[23]),
      AsI32(fs[24]),
      AsI32(fs[25]),
      AsInts(fs[26], 100),
      AsStr(fs[27]),
      AsI32(fs[28]),
      AsI32(fs[29]),
      AsI32(fs[30]),
      AsI32(fs[31]),
      AsI32(fs[32]));
    assert Conforms(fs, NpcSchema) ==> ToFields(h) == fs by {
      if Conforms(fs, NpcSchema) {
        var t := ToFields(h);
        forall j | 0 <= j < |fs|
          ensures t[j] == fs[j]
        {
          ShapedField(fs[j], NpcSchema[j]);
        }
      }
    }
    h
  }

  function WriteCNpc(h: CNpc): (r: seq<byte>)
    requires Storable(h)
    ensures ReadFields(r, NpcSchema) == Some((ToFields(h), []))
  {
    var w := WriteFields(ToFields(h), NpcSchema);
    FieldsRoundTrip(ToFields(h), NpcSchema, []);
    assert w + [] == w;
    w
  }

  /** A field of a kind is rebuilt exactly by that kind's getter. */
  lemma ShapedField(f: Field, k: Kind)
    requires Shaped(f, k)
    ensures k == KU32 ==> f == U32F(AsU32(f) % TWO32)
    ensures k == KI32 ==> f == I32F(AsI32(f))
    ensures k == KStr ==> f == StrF(AsStr(f))
    ensures k.KI32s? ==> f == I32sF(AsInts(f, k.n))
    ensures k.KStrs? ==> f == StrsF(AsStrs(f, k.n))
  {
  }

  /** A field list of the record's shape is the field list of the record
      built from it. */
  lemma {:induction false} FieldsShapeRecord(fs: seq<Field>)
    requires Conforms(fs, NpcSchema)
    ensures ToFields(FromFields(fs)) == fs
  {
    var t := ToFields(FromFields(fs));
    forall j | 0 <= j < |fs|
      ensures t[j] == fs[j]
    {
      ShapedField(fs[j], NpcSchema[j]);
    }
  }

  function ReadCNpc(s: seq<byte>): (r: Option<(CNpc, seq<byte>)>)
    ensures r.Some? <==> ReadFields(s, NpcSchema).Some?
    ensures r.Some? ==> (ToFields(r.value.0), r.value.1) == ReadFields(s, NpcSchema).value
    ensures r.Some? ==> r.value.0.instanceSymbol < TWO32
  {
    match ReadFields(s, NpcSchema)
    case None => None
    case Some((fs, rest)) =>
      FieldsShapeRecord(fs);
      Some((FromFields(fs), rest))
  }

  /** The reader takes the fields back in the order the writer put them;
      only the instance symbol loses its bits above the 32nd. */
  lemma FieldsInOrder(h: CNpc)
    ensures FromFields(ToFields(h)) == h.(instanceSymbol := h.instanceSymbol % TWO32)
  {
  }

  /** Any storable record comes back with its instance symbol cut to 32 bits
      and every other field unchanged, and the reader stops where the record
      ends. */
  lemma {:induction false} CNpcReadBack(h: CNpc, rest: seq<byte>)
    requires Storable(h)
    ensures ReadCNpc(WriteCNpc(h) + rest) == Some((h.(instanceSymbol := h.instanceSymbol % TWO32), rest))
  {
    FieldsRoundTrip(ToFields(h), NpcSchema, rest);
    FieldsInOrder(h);
  }

  /** A storable record whose instance symbol fits in 32 bits comes back
      unchanged. */
  lemma {:induction false} CNpcRoundTrip(h: CNpc, rest: seq<byte>)
    requires Storable(h) && h.instanceSymbol < TWO32
    ensures ReadCNpc(WriteCNpc(h) + rest) == Some((h, rest))
  {
    assert h.instanceSymbol % TWO32 == h.instanceSymbol;
    CNpcReadBack(h, rest);
  }
}
