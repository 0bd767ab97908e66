/**
  The save stream: its header (a fixed tag and a format version) and the
  encodings of the engine-specific values it carries. A stream is a byte
  sequence; writing appends to it and reading consumes a prefix of it,
  giving back the value and what is left.
 */
module Serialize {
  import opened Util
  import opened Bytes

  /** The bytes of `"OpenGothic/Save"` with its terminating NUL. */
  const Tag: seq<byte> :=
    [0x4F, 0x70, 0x65, 0x6E, 0x47, 0x6F, 0x74, 0x68,
     0x69, 0x63, 0x2F, 0x53, 0x61, 0x76, 0x65, 0x00]

  const TagText: string := "OpenGothic/Save"

  /** The oldest format this build reads and the one it writes. Their values
      live outside this model, so they are parameters. */
  datatype Versions = Versions(minVersion: u16, version: u16)

  /** What a reader needs to remember: the version of the stream it reads. */
  datatype Reader = Reader(ver: u16)

  datatype HeaderError = InvalidFormat | UnsupportedVersion | Truncated

  /** The tag is the text followed by one NUL, byte for byte. */
  lemma TagSpellsText()
    ensures |Tag| == |TagText| + 1 == 16
    ensures forall i :: 0 <= i < |TagText| ==> Tag[i] == TagText[i] as int
    ensures Tag[15] == 0
  {
  }

  /** The header a writer emits before anything else. */
  function WriteHeader(vs: Versions): (r: seq<byte>)
    ensures |r| == |Tag| + 2
    ensures r[..|Tag|] == Tag
    ensures ReadU16(r[|Tag|..]) == Some((vs.version, []))
  {
    U16RoundTrip(vs.version, []);
    assert (Tag + WriteU16(vs.version))[|Tag|..] == WriteU16(vs.version) + [];
    Tag + WriteU16(vs.version)
  }

  /** The tag-sized buffer the reader fills: the first bytes of the stream,
      zero-padded when the stream is shorter. */
  function TagBuffer(s: seq<byte>): (r: seq<byte>)
    ensures |r| == |Tag|
    ensures forall i :: 0 <= i < |Tag| ==> r[i] == (if i < |s| then s[i] else 0)
  {
    if |s| >= |Tag| then s[..|Tag|] else s + seq(|Tag| - |s|, _ => 0)
  }

  /** Opening a stream for reading. The tag is checked before the version;
      a stream that ends before the version is `Truncated`. */
  function ReadHeader(s: seq<byte>, vs: Versions): (r: Result<(Reader, seq<byte>), HeaderError>)
    ensures r == Err(InvalidFormat) <==> TagBuffer(s) != Tag
    ensures r == Err(Truncated) <==> TagBuffer(s) == Tag && |s| < |Tag| + 2
    ensures r.Ok? || r == Err(UnsupportedVersion) ==>
      |s| >= |Tag| + 2 && s[..|Tag|] == Tag
    ensures r.Ok? || r == Err(UnsupportedVersion) ==>
      var ver := s[|Tag|] as int + 0x100 * s[|Tag| + 1] as int;
      (r.Ok? <==> vs.minVersion <= ver <= vs.version) &&
      (r.Ok? ==> r.value == (Reader(ver), s[|Tag| + 2..]))
  {
    if TagBuffer(s) != Tag then Err(InvalidFormat)
    else if |s| < |Tag| + 2 then Err(Truncated)
    else
      var (ver, rest) := ReadU16(s[|Tag|..]).value;
      if ver < vs.minVersion || vs.version < ver then Err(UnsupportedVersion)
      else Ok((Reader(ver), rest))
  }

  /** A stream opened for neither reading nor writing reports the current
      version. */
  function Empty(vs: Versions): (r: Reader)
    ensures r.ver == vs.version
  {
    Reader(vs.version)
  }

  /** A header read back is accepted whenever the build can read its own
      version, and the reader then behaves like an empty stream. */
  lemma {:induction false} HeaderRoundTrip(vs: Versions, rest: seq<byte>)
    requires vs.minVersion <= vs.version
    ensures ReadHeader(WriteHeader(vs) + rest, vs) == Ok((Empty(vs), rest))
  {
    var s := WriteHeader(vs) + rest;
    assert s[..|Tag|] == Tag;
    assert TagBuffer(s) == Tag;
    assert s[|Tag|..] == WriteU16(vs.version) + rest;
    U16RoundTrip(vs.version, rest);
  }

  /** The outcome of opening a stream, case by case: which error, if any. */
  lemma {:induction false} ReadHeaderCases(s: seq<byte>, vs: Versions)
    ensures ReadHeader(s, vs) == Err(InvalidFormat) <==>
      exists i :: 0 <= i < |Tag| && (if i < |s| then s[i] else 0) != Tag[i]
    ensures ReadHeader(s, vs) == Err(Truncated) <==>
      TagBuffer(s) == Tag && |s| < |Tag| + 2
    ensures ReadHeader(s, vs) == Err(UnsupportedVersion) <==>
      |s| >= |Tag| + 2 && s[..|Tag|] == Tag &&
      var ver := s[|Tag|] as int + 0x100 * s[|Tag| + 1] as int;
      ver < vs.minVersion || vs.version < ver
    ensures ReadHeader(s, vs).Ok? ==>
      |s| >= |Tag| + 2 && s[..|Tag|] == Tag &&
      ReadHeader(s, vs).value.1 == s[|Tag| + 2..] &&
      ReadHeader(s, vs).value.0.ver == s[|Tag|] as int + 0x100 * s[|Tag| + 1] as int &&
      vs.minVersion <= ReadHeader(s, vs).value.0.ver <= vs.version
  {
    if TagBuffer(s) != Tag {
      var i :| 0 <= i < |Tag| && TagBuffer(s)[i] != Tag[i];
      assert (if i < |s| then s[i] else 0) != Tag[i];
    } else {
      forall i | 0 <= i < |Tag|
        ensures (if i < |s| then s[i] else 0) == Tag[i]
      {
        assert TagBuffer(s)[i] == Tag[i];
      }
      if |s| >= |Tag| + 2 {
        assert s[..|Tag|] == TagBuffer(s);
      }
    }
  }

  /** A string: its length as a 32-bit count, then that many bytes. A length
      that does not fit in 32 bits is cut to its low bits, and only that
      many bytes are written. */
  function WriteString(str: seq<byte>): (r: seq<byte>)
    ensures |r| == 4 + |str| % TWO32
    ensures r[..4] == WriteU32(|str| % TWO32)
    ensures ReadU32(r) == Some((|str| % TWO32, str[..|str| % TWO32]))
    ensures r[4..] == str[..|str| % TWO32]
  {
    var sz := |str| % TWO32;
    U32RoundTrip(sz, str[..sz]);
    WriteU32(sz) + str[..sz]
  }

  function ReadString(s: seq<byte>): (r: Option<(seq<byte>, seq<byte>)>)
    ensures r.Some? ==> |s| >= 4 && |r.value.0| < TWO32 && r.value.0 + r.value.1 == s[4..]
    ensures r.None? <==> |s| < 4 || |s| - 4 < ReadU32(s).value.0
    ensures r.Some? ==> |r.value.0| == ReadU32(s).value.0
  {
    match ReadU32(s)
    case None => None
    case Some((sz, rest)) =>
      if |rest| < sz then None else Some((rest[..sz], rest[sz..]))
  }

  lemma {:induction false} StringRoundTrip(str: seq<byte>, rest: seq<byte>)
    requires |str| < TWO32
    ensures ReadString(WriteString(str) + rest) == Some((str, rest))
  {
    var s := WriteString(str) + rest;
    assert s == WriteU32(|str|) + (str + rest);
    U32RoundTrip(|str|, str + rest);
    assert (str + rest)[..|str|] == str;
    assert (str + rest)[|str|..] == rest;
  }

  /** A string whose length does not fit in 32 bits comes back as its prefix
      of the truncated length. */
  lemma {:induction false} LongStringTruncates(str: seq<byte>, rest: seq<byte>)
    requires |str| >= TWO32
    ensures ReadString(WriteString(str) + rest) == Some((str[..|str| % TWO32], rest))
  {
    var sz := |str| % TWO32;
    var s := WriteString(str) + rest;
    assert s == WriteU32(sz) + (str[..sz] + rest);
    U32RoundTrip(sz, str[..sz] + rest);
    assert (str[..sz] + rest)[..sz] == str[..sz];
    assert (str[..sz] + rest)[sz..] == rest;
  }

  /** Script strings use the very same encoding as plain strings. */
  datatype ZString = ZString(chars: seq<byte>)

  function WriteZString(z: ZString): (r: seq<byte>)
    ensures |z.chars| < TWO32 ==> ReadZString(r) == Some((z, []))
  {
    var w := WriteString(z.chars);
    assert |z.chars| < TWO32 ==> ReadZString(w) == Some((z, [])) by {
      if |z.chars| < TWO32 {
        StringRoundTrip(z.chars, []);
        assert w + [] == w;
      }
    }
    w
  }

  function ReadZString(s: seq<byte>): (r: Option<(ZString, seq<byte>)>)
    ensures r.Some? <==> ReadString(s).Some?
    ensures r.Some? ==> r.value.0.chars == ReadString(s).value.0 && r.value.1 == ReadString(s).value.1
  {
    match ReadString(s)
    case None => None
    case Some((chars, rest)) => Some((ZString(chars), rest))
  }

  lemma {:induction false} ZStringRoundTrip(z: ZString, rest: seq<byte>)
    requires |z.chars| < TWO32
    ensures ReadZString(WriteZString(z) + rest) == Some((z, rest))
  {
    StringRoundTrip(z.chars, rest);
  }

  /** A way point is saved by name; the null way point by the empty name.
      Reading looks the name up among the world's points. */
  datatype WayPoint = WayPoint(name: seq<byte>)

  function WriteWayPoint(wp: Option<WayPoint>): (r: seq<byte>)
    ensures wp.None? ==> r == [0, 0, 0, 0]
    ensures wp.Some? && |wp.value.name| < TWO32 ==> ReadString(r) == Some((wp.value.name, []))
  {
    var name := if wp.Some? then wp.value.name else [];
    var w := WriteString(name);
    assert |name| < TWO32 ==> ReadString(w) == Some((name, [])) by {
      if |name| < TWO32 {
        StringRoundTrip(name, []);
        assert w + [] == w;
      }
    }
    w
  }

  function ReadWayPoint(s: seq<byte>, points: map<seq<byte>, WayPoint>): (r: Option<(Option<WayPoint>, seq<byte>)>)
    ensures r.Some? <==> ReadString(s).Some?
    ensures r.Some? ==> var (name, rest) := ReadString(s).value;
      r.value.1 == rest &&
      (r.value.0.Some? <==> name in points) &&
      (name in points ==> r.value.0 == Some(points[name]))
  {
    match ReadString(s)
    case None => None
    case Some((name, rest)) => Some((if name in points then Some(points[name]) else None, rest))
  }

  /** A point the world finds again under its own name comes back as itself;
      the null point comes back as null when no point has the empty name. */
  lemma {:induction false} WayPointRoundTrip(wp: Option<WayPoint>, points: map<seq<byte>, WayPoint>, rest: seq<byte>)
    requires wp.Some? ==> |wp.value.name| < TWO32 && wp.value.name in points && points[wp.value.name] == wp.value
    requires wp.None? ==> [] !in points
    ensures ReadWayPoint(WriteWayPoint(wp) + rest, points) == Some((wp, rest))
  {
    StringRoundTrip(if wp.Some? then wp.value.name else [], rest);
  }

  /** A script function handle. Handles at or above the largest 32-bit value
      are all written as that value, which reads back as the largest
      `size_t`, the engine's "no function". */
  const U32Max: u32 := TWO32 - 1
  const SizeMax: u64 := TWO64 - 1

  datatype ScriptFn = ScriptFn(ptr: u64)

  function WriteScriptFn(fn: ScriptFn): (r: seq<byte>)
    ensures |r| == 4
    ensures ReadU32(r) == Some((if fn.ptr < U32Max then fn.ptr else U32Max, []))
  {
    var v := if fn.ptr < U32Max then fn.ptr else U32Max;
    U32RoundTrip(v, []);
    assert WriteU32(v) + [] == WriteU32(v);
    WriteU32(v)
  }

  function ReadScriptFn(s: seq<byte>): (r: Option<(ScriptFn, seq<byte>)>)
    ensures r.None? <==> |s| < 4
    ensures r.Some? ==> r.value.1 == s[4..] && (r.value.0.ptr < U32Max || r.value.0.ptr == SizeMax)
    ensures r.Some? ==> (r.value.0.ptr == SizeMax <==> ReadU32(s).value.0 == U32Max)
    ensures r.Some? && ReadU32(s).value.0 < U32Max ==> r.value.0.ptr == ReadU32(s).value.0
  {
    match ReadU32(s)
    case None => None
    case Some((v, rest)) => Some((ScriptFn(if v == U32Max then SizeMax else v), rest))
  }

  lemma {:induction false} ScriptFnRoundTrip(fn: ScriptFn, rest: seq<byte>)
    ensures ReadScriptFn(WriteScriptFn(fn) + rest) ==
      Some((if fn.ptr < U32Max then fn else ScriptFn(SizeMax), rest))
  {
    U32RoundTrip(if fn.ptr < U32Max then fn.ptr else U32Max, rest);
  }

  /** Npcs are written by the id the world gives them and read back through
      the world's id lookup; both lookups are parameters. */
  type NpcRef = nat

  function WriteNpc(npc: Option<NpcRef>, npcId: Option<NpcRef> -> u32): (r: seq<byte>)
    ensures ReadU32(r) == Some((npcId(npc), []))
  {
    U32RoundTrip(npcId(npc), []);
    assert WriteU32(npcId(npc)) + [] == WriteU32(npcId(npc));
    WriteU32(npcId(npc))
  }

  function ReadNpc(s: seq<byte>, npcById: u32 -> Option<NpcRef>): (r: Option<(Option<NpcRef>, seq<byte>)>)
    ensures r.None? <==> |s| < 4
    ensures r.Some? ==> r.value == (npcById(ReadU32(s).value.0), s[4..])
  {
    match ReadU32(s)
    case None => None
    case Some((id, rest)) => Some((npcById(id), rest))
  }

  lemma {:induction false} NpcRoundTrip(npc: Option<NpcRef>, npcId: Option<NpcRef> -> u32,
                                        npcById: u32 -> Option<NpcRef>, rest: seq<byte>)
    requires npcById(npcId(npc)) == npc
    ensures ReadNpc(WriteNpc(npc, npcId) + rest, npcById) == Some((npc, rest))
  {
    U32RoundTrip(npcId(npc), rest);
  }

  /** A weapon state travels as its one-byte code. */
  datatype WeaponState = WeaponState(code: u8)

  function WriteWeaponState(w: WeaponState): (r: seq<byte>)
    ensures |r| == 1 && r[0] == w.code
  {
    WriteU8(w.code)
  }

  function ReadWeaponState(s: seq<byte>): (r: Option<(WeaponState, seq<byte>)>)
    ensures r.None? <==> |s| < 1
    ensures r.Some? ==> r.value == (WeaponState(s[0]), s[1..])
  {
    match ReadU8(s)
    case None => None
    case Some((c, rest)) => Some((WeaponState(c), rest))
  }

  lemma {:induction false} WeaponStateRoundTrip(w: WeaponState, rest: seq<byte>)
    ensures ReadWeaponState(WriteWeaponState(w) + rest) == Some((w, rest))
  {
    U8RoundTrip(w.code, rest);
  }
}
