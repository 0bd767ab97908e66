# OpenGothic: camera, Vob tree and save stream, in Dafny

This project models three parts of the OpenGothic engine and proves what
they promise.

- **The third-person follow camera** (`Game/camera.h`, `Game/camera.cpp`).
  The camera keeps a *current* state, which is rendered, and a
  *destination* state, which the current state chases on every `tick`.
  - The model covers the angle wrap `angleMod` and the bounded angle-follow
    step `followAng`.
  - It covers zoom clamping and zoom stepping, and the translation step with
    its 180-unit lag cap.
  - It covers mode switching with its framing snaps, the first-tick
    seeding, and the `save`/`load` field mapping.
  - It covers how `view` picks the final view distance from ray hits.
  - Modules: `Angles`, `Camera`, `CameraView`.
- **The Vob factory and transform tree** (`Game/world/vob.cpp`).
  - `Vob::load` dispatches an archive record, first on its type tag and
    then on its class name. The result is a node of some runtime class, a
    registration in one of the world's side tables, or nothing.
  - Unknown class names are logged once per name for the whole process.
  - The node constructor, `setGlobalTransform`, `setLocalTransform` and
    `recalculateTransform` maintain `world = parent.world × local` over
    the tree.
  - Modules: `Transform`, `VobTree`, `VobFactory`.
- **The save-stream framing** (`Game/game/serialize.cpp`).
  - A stream opens with a header: the tag `"OpenGothic/Save"` and a
    format version.
  - Strings are length-prefixed.
  - `ScriptFn` uses a sentinel value.
  - Way points and npcs are written as references.
  - The script engine's `C_Npc` record is written and read field by field.
  - Modules: `Bytes`, `Serialize`, `NpcRecord`.

`Util` holds `Option`, `Result` and small numeric helpers.

How things are represented:

- **Numbers.** Floating-point values are modelled as `real`, so the model
  idealises IEEE arithmetic.
- **Angle wrap.** `std::fmod` truncates toward zero; `Angles.Fmod360`
  writes that out explicitly.
- **Transforms.** These are an exact rigid-motion group: quarter turns
  about the vertical axis plus an integer translation.
  - `Compose(a, b)` is `a × b`.
  - `Position` is the translation row.
  - `Inverse` is a true two-sided inverse.
- **The Vob tree.** The tree is an arena: a sequence of nodes, each with
  its parent index, child list, local transform and class, next to a
  sequence of world transforms.
- **The save stream.** A stream is a sequence of bytes, each a number in
  0..255. Writers return the bytes they append. Readers return the value and the rest of the stream, or
  `None` when the stream ends first.

Inputs the code takes from outside these files become parameters:

- the per-mode camera table `cameraDef` (`Mode -> CamDef`);
- the mode offset that `applyModPosition` adds;
- the vector length `manhattanLength`;
- the pause flag and the player;
- the ray distances `view` obtains from physics;
- the serializer's `MinVersion`/`Version`;
- the world's way-point lookup and npc id maps.

Points where the code's behaviour is easy to misread, which the model
follows:

- Child records are loaded only by the node constructor. A record that
  registers in a side table, is skipped or is unknown therefore drops its
  children.
- `load` puts the saved range into the destination range only. The current
  range keeps the value it had before `load`, which is `bestRange` when a
  player is passed, because `implReset` runs first.
- `view` casts a 3×3 grid of rays, not a single ray. The model takes any
  number of rays.
- `clampRange` caps at `maxRange` and then raises to `minRange`. `view`
  clamps in the opposite order. Both orders agree when
  `minRange <= maxRange`.
- The first `tick` adds `bestAzimuth` to the pitch slot `spin.x`, exactly
  as the code does.
- `tick`'s minimum-elevation clamp is commented out. Only the upper cap is
  enforced.

## Model

| member | source | states |
|---|---|---|
| Angles.Fmod360 | Game/camera.cpp:16 | the remainder has the dividend's sign, lies strictly within one turn, and differs from the angle by whole turns (truncating `fmod`) |
| Angles.AngleMod | Game/camera.cpp:15-22 | the wrapped angle lies in [-180, 180], differs from the input by a whole number of turns, and equals the input when it is already in range |
| Angles.WrapUnique | Game/camera.cpp:15-22 | any value strictly inside (-180, 180) that differs from the angle by whole turns is the wrapped angle |
| Angles.FollowAng | Game/camera.cpp:352-373 | with da the wrapped gap: it snaps to the destination when abs(da) < speed; with abs(da) at most 46 it moves by exactly speed toward the destination; otherwise it moves by the catch-up shift |
| Angles.FollowAngCatchUp | Game/camera.cpp:365-372 | when the wrapped gap exceeds 46 (or is below -46) and there is no snap, the new wrapped gap is exactly 45 (or -45) |
| Angles.FollowAngNoOvershoot | Game/camera.cpp:352-364 | for speed >= 0 the new wrapped gap lies between 0 and the old gap |
| Camera.NewCam | Game/camera.h:75-93 | a new camera is in Normal mode with hasPos false, dialog distance 0, and both states at zero position and spin with range 0.3 |
| Camera.ModesClosed | Game/camera.h:19-30 | Mode has exactly ten distinct values and every mode is among them |
| Camera.ClampRange | Game/camera.cpp:304-310 | the result is at least minRange; when minRange <= maxRange it lies in [minRange, maxRange], in-range values are unchanged, and out-of-range values go to the nearer bound |
| Camera.ClampRangeIdempotent | Game/camera.cpp:304-310 | clamping a clamped range changes nothing |
| Camera.ChangeZoom | Game/camera.cpp:66-71 | only the destination range changes; a positive delta takes 0.1 off and any other delta (0 included) adds 0.1, then the result lands in the mode's range |
| Camera.SetMode | Game/camera.cpp:103-120 | re-entering the current mode changes nothing; Inventory, Dialog, Mobsi and Death set the destination yaw slot to bestAzimuth plus the player's facing (if any) and, except for Dialog, the pitch slot to bestElevation; nothing else changes |
| Camera.SetSpin | Game/camera.cpp:134-139 | current and destination spin both become (x, y, 0); no other field changes |
| Camera.SetDestSpin | Game/camera.cpp:141-147 | the destination pitch is clamped to [-90, 90], the yaw is taken unclamped, the roll is zeroed; nothing else changes |
| Camera.OnRotateMouse | Game/camera.cpp:149-152 | the destination spin moves by exactly the deltas, with no clamp |
| Camera.OnRotateMouseAdditive | Game/camera.cpp:149-152 | two mouse moves equal one move by their sum |
| Camera.SetPosition | Game/camera.cpp:338-342 | the destination becomes the point; the current position is the point plus the mode offset |
| Camera.SetDestPosition | Game/camera.cpp:344-346 | only the destination position changes |
| Camera.SetDialogDistance | Game/camera.cpp:348-350 | only the dialog distance changes |
| Camera.ImplReset | Game/camera.cpp:35-47 | both states equal the player's camera bone, pitch 0, the player's facing as yaw, and the mode's bestRange; hasPos is untouched |
| Camera.Reset | Game/camera.cpp:28-33 | without a player the camera is unchanged; with one both states are re-seeded from it |
| Camera.Save | Game/camera.cpp:49-54 | the six saved fields are current spin and position, destination spin and position, current range and hasPos; afterwards the destination range equals the current range |
| Camera.Load | Game/camera.cpp:56-64 | below version 8 only the reset happens; from version 8 on both spins, both positions and hasPos come from the save and the saved range lands in the destination range only |
| Camera.SaveLoadRoundTrip | Game/camera.cpp:49-64 | loading what save wrote, at version 8 or later, restores the destination state, the current spin and position, and hasPos of the saved camera |
| Camera.Seed | Game/camera.cpp:381-389 | seeding sets hasPos, copies the destination range, puts the destination at the bone and the current position at bone plus offset, and adds bestAzimuth to the pitch slot |
| Camera.ZoomStep | Game/camera.cpp:394-403 | the range snaps to the target when the gap is below zSpeed, otherwise it moves exactly zSpeed toward it; with zSpeed >= 0 it never passes the target |
| Camera.FollowFractionBounds | Game/camera.cpp:411-421 | the covered fraction k is at most 1 and leaves at most 180 units of gap; with non-negative travel k >= 0 and the remaining gap is at most len; it equals speed/len when neither cap applies |
| Camera.FollowFraction | Game/camera.cpp:412-421 | the fraction of the gap covered in one step is never more than the whole gap |
| Camera.Approach | Game/camera.cpp:421-422 | moving the position by fraction k of the gap leaves exactly fraction 1 - k of the gap, component by component |
| Camera.TranslateStep | Game/camera.cpp:405-426 | when following, the new gap to the target is the old gap scaled by 1 - k; otherwise the position snaps to the offset destination |
| Camera.RotateStep | Game/camera.cpp:428-440 | both spin slots take the follow step with budget veloRot·45·dt; the pitch slot is then capped at maxElevation, with no lower clamp |
| Camera.Tick | Game/camera.cpp:375-441 | hasPos becomes true; the destination range is clamped; the destination follows the bone only on first seeding; a paused tick on a seeded camera leaves the current state alone; unpaused, from the seeded start: the current range takes the zoom step, snapping to the destination range when the gap is below 5·dt/1000 and otherwise moving exactly 5·dt/1000 toward it, the position snaps to the offset destination unless the camera follows and otherwise keeps the gap scaled by 1 - k, and with rotation both spin slots take the follow step, the pitch capped at maxElevation, while without it the spin stays |
| Camera.TickStart | Game/camera.cpp:379-392 | a tick starts from the camera's own state once seeded, and otherwise from the bone plus the offset with the destination spin and bestAzimuth on the pitch slot |
| Camera.Advance | Game/camera.cpp:394-440 | on a seeded camera only the current state changes: the range takes the zoom step, snapping to the destination range when the gap is below 5·dt/1000 and otherwise moving exactly 5·dt/1000 toward it, the position snaps or keeps the gap scaled by 1 - k, and the spin slots take the follow step with the pitch capped |
| Camera.FollowStepLag | Game/camera.cpp:411-422 | for a length that scales with its vector and non-negative travel, one following step leaves at most 180 units of gap and no more than before |
| Camera.TickLagCap | Game/camera.cpp:405-426 | on the camera an unpaused tick returns, a following camera ends at most 180 units and no further than before from the offset destination, and a non-following one is exactly on it |
| Camera.FirstTickSeeds | Game/camera.cpp:379-392 | a paused first tick leaves the current state exactly seeded: clamped destination range, bone plus offset, destination spin with bestAzimuth on the pitch slot |
| CameraView.DesiredDistance | Game/camera.cpp:488-507 | Mobsi uses maxRange·100, Dialog the dialog distance, any other mode the current range clamped to the mode's range, times 100 |
| CameraView.RayLimit | Game/camera.cpp:548 | a ray's limit is never below 25, never above max(dist, 25), and equals that when the ray is unobstructed |
| CameraView.MinFold | Game/camera.cpp:522-551 | the fold is at most the distance and every ray's limit, at least min(distance, 25), and equals the distance or one of the limits |
| CameraView.FoldRays | Game/camera.cpp:522-551 | the loop over the rays ends with the minimum fold: at most the desired distance and every ray's limit, and at least min(desired, 25) |
| CameraView.ViewDistance | Game/camera.cpp:488-553 | without a world the distance is the desired one; with rays it is the minimum fold, never above the desired distance and never below min(desired, 25) |
| Transform.ComposeAssoc | Game/world/vob.cpp:33-38 | composition of transforms is associative |
| Transform.InverseCancels | Game/world/vob.cpp:33-38 | the inverse cancels on both sides |
| Transform.RelativeComposesBack | Game/world/vob.cpp:55-65 | parent × (parent⁻¹ × p) = p, so a local transform computed from a world transform gives it back |
| VobTree.Recalc | Game/world/vob.cpp:75-90 | the node's world transform becomes parent.world × local (its local at a root), lower-indexed nodes keep theirs, the node itself invalidates the index exactly when its position changed, and it is visited first |
| VobTree.RecalcChildren | Game/world/vob.cpp:87-89 | the loop over the children never changes the world transform of the node or of any lower-indexed node |
| VobTree.RecalcFacts | Game/world/vob.cpp:75-90 | after recalculation from a node, nodes outside its subtree keep their world transform, every subtree node satisfies world = parent.world × local, the index is invalidated for exactly the subtree nodes whose position changed, and every subtree node is visited |
| VobTree.RecalcChildrenFacts | Game/world/vob.cpp:87-89 | the loop over children k.. has the same four properties for the union of those children's subtrees |
| VobTree.DescSplit | Game/world/vob.cpp:87-89 | a node's subtree is the node itself plus its children's subtrees |
| VobTree.SetGlobalTransform | Game/world/vob.cpp:55-65 | the node's world transform becomes p and no other world transform changes; only the node's local changes, so that the node satisfies the tree invariant; children are not touched |
| VobTree.SetLocalTransform | Game/world/vob.cpp:67-70 | only the node's local transform changes, to p, and the tree stays well formed |
| VobTree.SetLocalTransformFacts | Game/world/vob.cpp:67-70 | after setting a local transform the subtree is consistent, nodes outside it keep their world transforms, exactly the moved subtree nodes invalidate the index, and an everywhere-consistent tree stays so |
| VobFactory.Dispatch | Game/world/vob.cpp:93-190 | only tags the switch does not name can be unknown |
| VobFactory.ClassFallback | Game/world/vob.cpp:166-188 | an animated class name becomes a static object, an acknowledged one is skipped, and every other name is unknown, each in both directions |
| VobFactory.DispatchNodeTags | Game/world/vob.cpp:94-133 | every node tag yields its fixed variant from the tag table, whatever the class name and startup flag |
| VobFactory.DispatchSideTables | Game/world/vob.cpp:134-163 | every side-table tag registers in its table from the side-table map; items only at startup and are skipped otherwise |
| VobFactory.DispatchFallback | Game/world/vob.cpp:166-188 | for unlisted tags: the animated classes become static objects, the six acknowledged classes are skipped, and every other name is unknown, each in both directions |
| VobFactory.TagsPartitioned | Game/world/vob.cpp:94-163 | a tag the switch names is a node tag or a side-table tag, never both, and its outcome ignores the class name |
| VobFactory.AppendNode | Game/world/vob.cpp:26-38 | attaching a node keeps the tree well formed and consistent, links it at the end of its parent's child list, and gives it parent.world × local = the record's world matrix |
| VobFactory.Attach | Game/world/vob.cpp:26-38 | the node is appended with no children, the given parent and variant, and world transform w; its local is w at a root and composes back to w under its parent; it is linked at the end of the parent's child list and no other node changes |
| VobFactory.Load | Game/world/vob.cpp:93-190 | existing world transforms are kept; a node is created exactly when the dispatch instantiates, at the next index, with the dispatched variant, the given parent and the record's world matrix; otherwise the scene is unchanged; a registration appends one entry, a skip changes nothing, and an unknown name is logged only when not seen before |
| VobFactory.Construct | Game/world/vob.cpp:26-46 | the constructor always creates its node at the next index, with the chosen variant, under the given parent and with the record's world matrix, and keeps every earlier world transform |
| VobFactory.LoadChildren | Game/world/vob.cpp:40-44 | the child loop keeps every existing world transform and itself reports no created node |
| VobFactory.LoadFacts | Game/world/vob.cpp:93-190 | loading a record only appends nodes and accumulates effects; a node is created exactly when the dispatch instantiates, at the next index, with the dispatched variant, the record's world matrix and the right local; otherwise the scene is unchanged; registrations append one entry; unknown names are logged only if not seen before |
| VobFactory.ConstructFacts | Game/world/vob.cpp:26-46 | the constructor creates the node at the next index under its parent, with parent.world × local equal to the record's world matrix, and only appends to the scene |
| VobFactory.LoadChildrenFacts | Game/world/vob.cpp:40-44 | the child loop only appends to the scene and accumulates effects |
| VobFactory.LoadChildrenOrder | Game/world/vob.cpp:40-44 | the child loop appends to the node's child list exactly the variants produced by the child records, in declaration order |
| VobFactory.ConstructChildren | Game/world/vob.cpp:26-46 | a constructed node's children are the non-null results of loading its record's children, in order |
| VobFactory.UnknownLoggedOnce | Game/world/vob.cpp:182-188 | two records with the same unseen unknown class log that name once in all, and create nothing |
| Bytes.U8RoundTrip | Game/game/serialize.cpp:127-133 | a byte reads back as written |
| Bytes.U16RoundTrip | Game/game/serialize.cpp:13-22 | a 16-bit value reads back as written, consuming two bytes |
| Bytes.U32RoundTrip | Game/game/serialize.cpp:94-99 | a 32-bit value reads back as written, consuming four bytes |
| Bytes.I32RoundTrip | Game/game/serialize.cpp:145-146 | an int32 travels as its two's complement pattern and reads back as written |
| Serialize.TagSpellsText | Game/game/serialize.cpp:10 | the 16 tag bytes are the characters of "OpenGothic/Save" followed by a NUL |
| Serialize.WriteHeader | Game/game/serialize.cpp:12-16 | the header is the 16 tag bytes followed by the current version in two bytes |
| Serialize.ReadHeader | Game/game/serialize.cpp:18-28 | invalid format exactly when the first 16 bytes (zero-padded) differ from the tag; a matching tag without two version bytes is truncated; otherwise the little-endian version is accepted exactly when it lies in [MinVersion, Version], and the reader then holds it with the stream positioned after the header |
| Serialize.ReadHeaderCases | Game/game/serialize.cpp:18-28 | a stream is rejected as an invalid format exactly when its first 16 bytes (zero-padded) differ from the tag, as unsupported exactly when the tag matches and the version is below MinVersion or above Version, and is accepted otherwise with the version in range and the stream positioned after the header |
| Serialize.HeaderRoundTrip | Game/game/serialize.cpp:12-37 | a freshly written header is always accepted, and the reader then holds the current version, as an empty stream does |
| Serialize.Empty | Game/game/serialize.cpp:30-37 | an empty stream reports the current version |
| Serialize.WriteString | Game/game/serialize.cpp:39-43 | a string takes four length bytes that encode its length cut to 32 bits, and read back as that length, followed by that many of its bytes |
| Serialize.ReadString | Game/game/serialize.cpp:45-51 | the string read is exactly as long as the 32-bit length read, and it and the rest of the stream make up the stream after the length; it fails only when the stream ends before the length or the bytes |
| Serialize.StringRoundTrip | Game/game/serialize.cpp:39-51 | any string shorter than 2^32 bytes, the empty one included, reads back unchanged and consumes exactly 4 + its length bytes |
| Serialize.LongStringTruncates | Game/game/serialize.cpp:39-43 | a string of 2^32 bytes or more reads back as its prefix of the length cut to 32 bits |
| Serialize.ZStringRoundTrip | Game/game/serialize.cpp:53-63 | a script string round-trips through the plain string encoding |
| Serialize.ReadZString | Game/game/serialize.cpp:59-63 | reading a script string succeeds exactly when reading a plain string does, with the same characters and the same rest of the stream |
| Serialize.WriteZString | Game/game/serialize.cpp:53-57 | a script string shorter than 2^32 bytes is written so that reading a script string gives it back and consumes everything |
| Serialize.ReadWayPoint | Game/game/serialize.cpp:85-88 | reading resolves the name through the world's lookup, giving null for names it does not know |
| Serialize.WriteWayPoint | Game/game/serialize.cpp:81-83 | null is written as the empty name (four zero bytes); a point is written as its name, which reads back as a plain string |
| Serialize.WayPointRoundTrip | Game/game/serialize.cpp:81-88 | a way point found again under its own name reads back as itself; null reads back as null when no point has the empty name |
| Serialize.ReadScriptFn | Game/game/serialize.cpp:97-103 | four bytes are consumed; the value 0xFFFFFFFF, and only it, becomes the largest size_t, and every smaller value is the handle itself |
| Serialize.WriteScriptFn | Game/game/serialize.cpp:90-95 | four bytes that read back as the handle when it is below 0xFFFFFFFF and as 0xFFFFFFFF otherwise |
| Serialize.ScriptFnRoundTrip | Game/game/serialize.cpp:90-103 | a handle below 0xFFFFFFFF reads back unchanged; any other handle reads back as the largest size_t |
| Serialize.WriteNpc | Game/game/serialize.cpp:105-108 | the npc is written as the four bytes of the id the world gives it |
| Serialize.ReadNpc | Game/game/serialize.cpp:110-114 | reading fails exactly on a stream shorter than four bytes; otherwise it gives the world's npc for the id read and the stream after it |
| Serialize.NpcRoundTrip | Game/game/serialize.cpp:105-125 | an npc reference reads back as itself whenever the id lookup inverts the id map on it |
| Serialize.ReadWeaponState | Game/game/serialize.cpp:131-133 | reading takes exactly one byte as the state |
| Serialize.WriteWeaponState | Game/game/serialize.cpp:127-129 | a weapon state is written as the single byte of its code |
| Serialize.WeaponStateRoundTrip | Game/game/serialize.cpp:127-133 | a weapon state reads back as written |
| NpcRecord.I32sRoundTrip | Game/game/serialize.cpp:147 | an int32 array written element by element reads back with the same length and elements |
| NpcRecord.StrsRoundTrip | Game/game/serialize.cpp:145 | a string array written element by element reads back unchanged |
| NpcRecord.FieldsRoundTrip | Game/game/serialize.cpp:143-171 | any list of fields that fit a schema reads back unchanged under the same schema |
| NpcRecord.ToFields | Game/game/serialize.cpp:143-155 | the writer's values have, in order, the shapes the reader's schema expects |
| NpcRecord.FromFields | Game/game/serialize.cpp:157-171 | the reader's record has an instance symbol below 2^32, and from a field list of the schema's shape it is the record whose writer fields are exactly that list |
| NpcRecord.WriteCNpc | Game/game/serialize.cpp:143-155 | the record's bytes read back under the record schema as exactly the writer's field list, consuming everything |
| NpcRecord.ReadCNpc | Game/game/serialize.cpp:157-171 | reading a record succeeds exactly when its fields read under the schema; the record read has precisely those fields, its instance symbol is below 2^32, and the stream is positioned after them |
| NpcRecord.FieldsShapeRecord | Game/game/serialize.cpp:157-171 | any field list of the record's shape is exactly the field list of the record built from it, so building the record loses nothing |
| NpcRecord.FieldsInOrder | Game/game/serialize.cpp:143-171 | the reader fills each field from the value the writer emitted for it; only the instance symbol loses its bits above the 32nd |
| NpcRecord.CNpcReadBack | Game/game/serialize.cpp:143-171 | a storable record reads back with its instance symbol cut to 32 bits and every other field unchanged, and the reader stops where the record ends |
| NpcRecord.CNpcRoundTrip | Game/game/serialize.cpp:143-171 | a storable record whose instance symbol fits in 32 bits reads back unchanged |

## Left out

- Floating-point rounding: all camera arithmetic is over `real`.
- The matrix and trigonometry code of the camera (`viewShadow`, `mkView`, `mkRotation`, `projective`, `setViewport`, `viewProj`), and the rotation of the target offset inside `applyModPosition`. The offset is a parameter.
- `implMove` and the four move and two rotate key handlers: they use sine, cosine and a physics ground ray.
- The ray construction inside `view` (matrix inverses and physics ray casts): each ray's `dist0`/`dist1` is an arbitrary input.
- `debugDraw`, `setToogleEnable`, `isToogleEnabled`, `toogleDebug`: debug output and flags that no modelled behaviour reads.
- `cameraDef`'s selection of a definition from the script engine: the table is a parameter.
- Camera.RotateStep: `applyModRotation` has an empty body in the source and is the identity here.
- The variant constructors (StaticObj, Interactive, the trigger classes) and the world's side tables: their code is not part of this model. The factory records the chosen variant and appends registrations to a log.
- `moveEvent` is a no-op in `Vob`. Its subclass overrides are not part of this model; the recompute pass records the visit order in their place.
- Clearing the record's child list after loading: records are immutable values here.
- Transforms: general 4×4 matrices are replaced by exact quarter-turn rotations plus integer translations, so that inverse and composition are exact.
- The physics mesh and mover trigger headers: they hold declarations only.
- Pixmap, SaveGameHeader and FpLock serialization: they delegate to code outside this model.
- The native byte order of primitive writes: little-endian is fixed here.
- `MinVersion` and `Version` live in serialize.h, which is not part of this model: they are parameters.
- The primitive `read`/`write` and the variadic forms are declared in serialize.h. The model assumes they write fixed-width values and fixed-size arrays element by element, without a length.
- The C_Npc field types and array sizes are declared in the script engine's headers, which are not part of this model. The model assumes `int32_t` fields and arrays of 5 names, 8 attributes, 5 hit chances, 8 protections, 8 damages, 5 missions and 100 aivars.
- Serialize.ReadHeader: in the source, a stream that ends inside the version leaves `ver` as it was. Here that stream is reported as `Truncated`.
- Serialize.ReadString: in the source, a stream that ends inside a string yields a partly filled string. Here the read fails.
- Serialize.ReadZString: in the source, a stream that ends inside a script string yields a partly filled string. Here the read fails.
- Serialize.ReadScriptFn: in the source, a stream shorter than four bytes leaves `v` at 0, so the handle becomes 0. Here the read fails.
- Serialize.ReadNpc: in the source, a stream shorter than four bytes leaves `id` at 0xFFFFFFFF, and that id is looked up. Here the read fails.
- Serialize.ReadWeaponState: in the source, an empty stream leaves the state as it was. Here the read fails.
- Serialize.ReadWayPoint: in the source, a stream that ends inside the name looks up a partly filled name. Here the read fails.
- NpcRecord.ReadCNpc: in the source, a stream that ends inside the record leaves it partly read: the fields read so far are filled, the instance symbol is 0 when even its four bytes are missing, and the rest keep their earlier values. Here the read fails, and so do `ReadFields`, `ReadI32s` and `ReadStrs`, on which it rests.
- Camera.Load: the version check is on the stream's version, which is a parameter here.
- Camera.TickLagCap: the length function is a parameter, so the lemma assumes that it scales with its vector, as the sum of absolute components does, and that the mode's speeds are not negative.
