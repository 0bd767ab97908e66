/**
  The Vob factory (`Vob::load` and the child-loading node constructor in
  Game/world/vob.cpp). An archive record is dispatched on its type tag, and
  for tags the switch does not name, on its class-name string, to one of:
  a node of some runtime variant, a registration in one of the world's side
  tables, or nothing. Unknown class names are logged once per distinct name;
  the set of names already seen is threaded through every call, as the
  source's function-static set persists for the whole process.
 */
module VobFactory {
  import opened Util
  import opened Transform
  import opened VobTree

  /** Archive type tags (`zCVobData::vobType`); `Unlisted` stands for every tag
      the switch has no case for. */
  datatype Tag =
    | ZCVob | LevelCompo | MobFire | Mob | MobBed | MobDoor | MobInter | MobContainer
    | MobSwitch | MobLadder | MobWheel
    | Mover | CodeMasterTag | TriggerListTag | TriggerScriptTag | TriggerWorldStartTag
    | TriggerChangeLevel | TriggerTag | MessageFilterTag
    | Startpoint | Spot | Item | Sound | SoundDaytime | ZoneMusic | ZoneMusicDefault | Light
    | Unlisted(code: nat)

  /** The fields of an archive record this model reads. */
  datatype Record = Record(
    tag: Tag, objectClass: string, worldMatrix: Xf,
    position: Vec3, facing: Vec3, name: string,
    children: seq<Record>)

  /** The world's side tables. */
  datatype Table = StartPoints | FreePoints | Items | Sounds | Lights

  datatype Registration = Registration(table: Table, record: Record)

  /** What `Vob::load` does with one record. */
  datatype Decision = Instantiate(variant: Variant) | Register(table: Table) | Skip | Unknown

  /** The tag-to-variant part of the switch, as a table. */
  const NodeVariants: map<Tag, Variant> := map[
    ZCVob := StaticObj, MobFire := StaticObj, MobLadder := StaticObj, MobWheel := StaticObj,
    LevelCompo := PlainVob,
    Mob := Interactive, MobBed := Interactive, MobDoor := Interactive,
    MobInter := Interactive, MobContainer := Interactive, MobSwitch := Interactive,
    Mover := MoveTrigger, CodeMasterTag := CodeMaster, TriggerListTag := TriggerList,
    TriggerScriptTag := TriggerScript, TriggerWorldStartTag := TriggerWorldStart,
    TriggerChangeLevel := ZoneTrigger, TriggerTag := Trigger, MessageFilterTag := MessageFilter]

  /** The tag-to-side-table part of the switch, as a table. */
  const SideTables: map<Tag, Table> := map[
    Startpoint := StartPoints, Spot := FreePoints, Item := Items,
    Sound := Sounds, SoundDaytime := Sounds, ZoneMusic := Sounds, ZoneMusicDefault := Sounds,
    Light := Lights]

  /** Class names of unlisted tags that become static objects. */
  const AnimatedClasses: set<string> := {"zCVobAnimate:zCVob", "zCPFXControler:zCVob"}

  /** Class names skipped without a log: one not implemented, five never to be. */
  const SilentClasses: set<string> := {
    "oCTouchDamage:zCTouchDamage:zCVob",
    "zCVobLensFlare:zCVob",
    "zCZoneVobFarPlane:zCVob",
    "zCZoneVobFarPlaneDefault:zCZoneVobFarPlane:zCVob",
    "zCZoneZFog:zCVob",
    "zCZoneZFogDefault:zCZoneZFog:zCVob"}

  /** The class-name fallback for tags the switch does not name. */
  function ClassFallback(cls: string): (d: Decision)
    ensures d == Instantiate(StaticObj) <==> cls in AnimatedClasses
    ensures d == Skip <==> cls in SilentClasses
    ensures d == Unknown <==> cls !in AnimatedClasses && cls !in SilentClasses
    ensures d == Instantiate(StaticObj) || d == Skip || d == Unknown
  {
    if cls == "zCVobAnimate:zCVob" || cls == "zCPFXControler:zCVob" then Instantiate(StaticObj)
    else if cls == "oCTouchDamage:zCTouchDamage:zCVob" then Skip
    else if cls == "zCVobLensFlare:zCVob" || cls == "zCZoneVobFarPlane:zCVob"
         || cls == "zCZoneVobFarPlaneDefault:zCZoneVobFarPlane:zCVob"
         || cls == "zCZoneZFog:zCVob" || cls == "zCZoneZFogDefault:zCZoneZFog:zCVob" then Skip
    else Unknown
  }

  /** The dispatch of `Vob::load`: first the tag switch, then the class name. */
  function Dispatch(tag: Tag, cls: string, startup: bool): (d: Decision)
    ensures d.Unknown? ==> tag.Unlisted?
  {
    match tag
    case ZCVob => Instantiate(StaticObj)
    case LevelCompo => Instantiate(PlainVob)
    case MobFire => Instantiate(StaticObj)
    case Mob => Instantiate(Interactive)
    case MobBed => Instantiate(Interactive)
    case MobDoor => Instantiate(Interactive)
    case MobInter => Instantiate(Interactive)
    case MobContainer => Instantiate(Interactive)
    case MobSwitch => Instantiate(Interactive)
    case MobLadder => Instantiate(StaticObj)
    case MobWheel => Instantiate(StaticObj)
    case Mover => Instantiate(MoveTrigger)
    case CodeMasterTag => Instantiate(CodeMaster)
    case TriggerListTag => Instantiate(TriggerList)
    case TriggerScriptTag => Instantiate(TriggerScript)
    case TriggerWorldStartTag => Instantiate(TriggerWorldStart)
    case TriggerChangeLevel => Instantiate(ZoneTrigger)
    case TriggerTag => Instantiate(Trigger)
    case MessageFilterTag => Instantiate(MessageFilter)
    case Startpoint => Register(StartPoints)
    case Spot => Register(FreePoints)
    case Item => if startup then Register(Items) else Skip
    case Sound => Register(Sounds)
    case SoundDaytime => Register(Sounds)
    case ZoneMusic => Register(Sounds)
    case ZoneMusicDefault => Register(Sounds)
    case Light => Register(Lights)
    case Unlisted(_) => ClassFallback(cls)
  }

  /** Each tag the switch names for a node yields its fixed variant, whatever
      the class name. */
  lemma DispatchNodeTags(tag: Tag, cls: string, startup: bool)
    requires tag in NodeVariants
    ensures Dispatch(tag, cls, startup) == Instantiate(NodeVariants[tag])
  {
    match tag
    case ZCVob =>
    case LevelCompo =>
    case MobFire =>
    case Mob =>
    case MobBed =>
    case MobDoor =>
    case MobInter =>
    case MobContainer =>
    case MobSwitch =>
    case MobLadder =>
    case MobWheel =>
    case Mover =>
    case CodeMasterTag =>
    case TriggerListTag =>
    case TriggerScriptTag =>
    case TriggerWorldStartTag =>
    case TriggerChangeLevel =>
    case TriggerTag =>
    case MessageFilterTag =>
    case _ => assert false;
  }

  /** Each side-table tag registers in its table and creates no node; an item
      registers only at startup. */
  lemma DispatchSideTables(tag: Tag, cls: string, startup: bool)
    requires tag in SideTables
    ensures Dispatch(tag, cls, startup) == (if tag == Item && !startup then Skip else Register(SideTables[tag]))
  {
    match tag
    case Startpoint =>
    case Spot =>
    case Item =>
    case Sound =>
    case SoundDaytime =>
    case ZoneMusic =>
    case ZoneMusicDefault =>
    case Light =>
    case _ => assert false;
  }

  /** For tags the switch does not name, the class name decides: animated
      classes become static objects, the six acknowledged classes are skipped
      silently, every other name is unknown. */
  lemma DispatchFallback(tag: Tag, cls: string, startup: bool)
    requires tag.Unlisted?
    ensures cls in AnimatedClasses <==> Dispatch(tag, cls, startup) == Instantiate(StaticObj)
    ensures cls in SilentClasses <==> Dispatch(tag, cls, startup) == Skip
    ensures cls !in AnimatedClasses && cls !in SilentClasses <==> Dispatch(tag, cls, startup) == Unknown
  {
  }

  /** Every tag the switch names is either a node tag or a side-table tag,
      never both, and its outcome does not depend on the class name. */
  lemma TagsPartitioned(tag: Tag, cls1: string, cls2: string, startup: bool)
    ensures !tag.Unlisted? <==> (tag in NodeVariants || tag in SideTables)
    ensures !(tag in NodeVariants && tag in SideTables)
    ensures !tag.Unlisted? ==> Dispatch(tag, cls1, startup) == Dispatch(tag, cls2, startup)
  {
    TagsCovered(tag);
    TagsDisjoint(tag);
  }

  lemma TagsCovered(tag: Tag)
    ensures !tag.Unlisted? <==> (tag in NodeVariants || tag in SideTables)
  {
  }

  lemma TagsDisjoint(tag: Tag)
    ensures !(tag in NodeVariants && tag in SideTables)
  {
    match tag
    case Startpoint =>
    case Spot =>
    case Item =>
    case Sound =>
    case SoundDaytime =>
    case ZoneMusic =>
    case ZoneMusicDefault =>
    case Light =>
    case _ => assert tag !in SideTables;
  }

  /** The variants a list of records produces, in order: the non-null results. */
  function Produced(recs: seq<Record>, startup: bool): seq<Variant> {
    if |recs| == 0 then []
    else
      var d := Dispatch(recs[0].tag, recs[0].objectClass, startup);
      (if d.Instantiate? then [d.variant] else []) + Produced(recs[1..], startup)
  }

  ghost function VariantsAt(nodes: seq<Node>, idx: seq<nat>): seq<Variant>
    requires forall m | 0 <= m < |idx| :: idx[m] < |nodes|
  {
    seq(|idx|, m requires 0 <= m < |idx| => nodes[idx[m]].variant)
  }

  /** The process-wide effects of loading: the unknown class names seen, the
      diagnostic log, and the side-table registrations in order. */
  datatype Effects = Effects(seen: set<string>, log: seq<string>, registered: seq<Registration>)

  /** Every logged name was seen, and no name was logged twice. */
  ghost predicate LogOk(fx: Effects) {
    && (forall a, b | 0 <= a < b < |fx.log| :: fx.log[a] != fx.log[b])
    && (forall a | 0 <= a < |fx.log| :: fx.log[a] in fx.seen)
  }

  /** Effects only accumulate; a newly logged name had not been seen before. */
  ghost predicate EffectsGrow(fx: Effects, fx': Effects) {
    && fx.seen <= fx'.seen
    && |fx.log| <= |fx'.log| && fx'.log[..|fx.log|] == fx.log
    && (forall m | |fx.log| <= m < |fx'.log| :: fx'.log[m] !in fx.seen)
    && |fx.registered| <= |fx'.registered| && fx'.registered[..|fx.registered|] == fx.registered
    && (LogOk(fx) ==> LogOk(fx'))
  }

  /** Scene `s'` is `s` with nodes appended: existing nodes keep parent, local
      transform, variant and world transform; only `parent`'s child list may
      grow; the tree invariant survives. */
  ghost predicate Extends(s: Scene, s': Scene, parent: Option<nat>) {
    && Valid(s')
    && |s.nodes| <= |s'.nodes|
    && |s.world| <= |s'.world| && s'.world[..|s.world|] == s.world
    && (forall j | 0 <= j < |s.nodes| ::
          s'.nodes[j] == s.nodes[j].(children := s'.nodes[j].children)
          && |s.nodes[j].children| <= |s'.nodes[j].children|
          && s'.nodes[j].children[..|s.nodes[j].children|] == s.nodes[j].children)
    && (forall j | 0 <= j < |s.nodes| && parent != Some(j) :: s'.nodes[j] == s.nodes[j])
    && (|s.world| == |s.nodes| && AllConsistent(s) ==> AllConsistent(s'))
  }

  datatype Loaded = Loaded(scene: Scene, fx: Effects, created: Option<nat>)

  /** `Vob::load` for one record under `parent`. */
  function Load(s: Scene, parent: Option<nat>, rec: Record, startup: bool, fx: Effects): (r: Loaded)
    requires Valid(s) && (parent.Some? ==> parent.value < |s.nodes|)
    ensures Valid(r.scene) && |s.nodes| <= |r.scene.nodes|
    ensures r.scene.world[..|s.world|] == s.world
    ensures var d := Dispatch(rec.tag, rec.objectClass, startup);
            && (r.created.Some? <==> d.Instantiate?)
            && (r.created.None? ==> r.scene == s)
            && (r.created.Some? ==>
                  && r.created.value == |s.nodes| < |r.scene.nodes|
                  && r.scene.nodes[|s.nodes|].variant == d.variant
                  && r.scene.nodes[|s.nodes|].parent == parent
                  && r.scene.world[|s.nodes|] == rec.worldMatrix)
            && (d.Register? ==> r.fx == fx.(registered := fx.registered + [Registration(d.table, rec)]))
            && (d.Skip? ==> r.fx == fx)
            && (d.Unknown? ==> r.fx == fx.(seen := fx.seen + {rec.objectClass},
                                           log := fx.log + (if rec.objectClass in fx.seen then [] else [rec.objectClass])))
    decreases rec, 4, 0, 0
  {
    match Dispatch(rec.tag, rec.objectClass, startup)
    case Instantiate(v) => Construct(s, parent, rec, v, startup, fx)
    case Register(t) => Loaded(s, fx.(registered := fx.registered + [Registration(t, rec)]), None)
    case Skip => Loaded(s, fx, None)
    case Unknown =>
      var cls := rec.objectClass;
      if cls in fx.seen then Loaded(s, fx, None)
      else Loaded(s, fx.(seen := fx.seen + {cls}, log := fx.log + [cls]), None)
  }

  /** The node constructor's first half: a node with world transform `w`
      and local transform parent.world⁻¹ × w, linked under `parent`. */
  function Attach(s: Scene, parent: Option<nat>, w: Xf, v: Variant): (r: Scene)
    requires Valid(s) && (parent.Some? ==> parent.value < |s.nodes|)
    ensures |r.nodes| == |s.nodes| + 1 && r.world == s.world + [w]
    ensures var nd := r.nodes[|s.nodes|]; nd.parent == parent && nd.children == [] && nd.variant == v
    ensures parent.None? ==> r.nodes[|s.nodes|].local == w
    ensures parent.Some? ==> Compose(s.world[parent.value], r.nodes[|s.nodes|].local) == w
    ensures parent.Some? ==> r.nodes[parent.value].children == s.nodes[parent.value].children + [|s.nodes|]
    ensures forall j | 0 <= j < |s.nodes| && Some(j) != parent :: r.nodes[j] == s.nodes[j]
  {
    var n := |s.nodes|;
    var local := match parent
      case None => w
      case Some(p) => Compose(Inverse(s.world[p]), w);
    var linked := match parent
      case None => s.nodes
      case Some(p) => s.nodes[p := s.nodes[p].(children := s.nodes[p].children + [n])];
    assert parent.Some? ==> Compose(s.world[parent.value], local) == w by {
      if parent.Some? {
        RelativeComposesBack(s.world[parent.value], w);
      }
    }
    Scene(linked + [Node(parent, [], local, v)], s.world + [w])
  }

  lemma AttachWellFormed(s: Scene, parent: Option<nat>, w: Xf, v: Variant)
    requires Valid(s) && (parent.Some? ==> parent.value < |s.nodes|)
    ensures WellFormed(Attach(s, parent, w, v).nodes)
  {
    var n := |s.nodes|;
    var s' := Attach(s, parent, w, v);
    forall j | 0 <= j < |s'.nodes|
      ensures ParentLinked(s'.nodes, j) && ChildrenLinked(s'.nodes, j)
    {
      if j < n {
        assert ParentLinked(s.nodes, j) && ChildrenLinked(s.nodes, j);
      }
    }
  }

  /** Appending a node linked under `parent` keeps the tree well formed and
      consistent, and the new node composes back to `w` under its parent. */
  lemma {:induction false} AppendNode(s: Scene, parent: Option<nat>, w: Xf, v: Variant)
    requires Valid(s) && (parent.Some? ==> parent.value < |s.nodes|)
    ensures var s' := Attach(s, parent, w, v);
            && Extends(s, s', parent) && |s'.nodes| == |s.nodes| + 1
            && s'.nodes[|s.nodes|] == Node(parent, [], s'.nodes[|s.nodes|].local, v)
            && s'.world[|s.nodes|] == w
            && (parent.Some? ==>
                  && s'.nodes[parent.value].children == s.nodes[parent.value].children + [|s.nodes|]
                  && Compose(s.world[parent.value], s'.nodes[|s.nodes|].local) == w)
            && (parent.None? ==> s'.nodes[|s.nodes|].local == w)
  {
    var n := |s.nodes|;
    var s' := Attach(s, parent, w, v);
    AttachWellFormed(s, parent, w, v);
    if parent.Some? {
      RelativeComposesBack(s.world[parent.value], w);
    }
    assert s'.world[..|s.world|] == s.world;
    forall j | 0 <= j < n
      ensures s'.nodes[j].children[..|s.nodes[j].children|] == s.nodes[j].children
    {
    }
    if AllConsistent(s) {
      forall j | 0 <= j < |s'.nodes|
        ensures Consistent(s', j)
      {
        if j < n {
          assert Consistent(s, j);
          assert ParentLinked(s.nodes, j);
        }
      }
    }
  }

  /** The node constructor `Vob(parent, world, record, startup)`: the node is
      created with the record's world matrix, then each child record is
      loaded under it in declaration order. */
  function Construct(s: Scene, parent: Option<nat>, rec: Record, v: Variant, startup: bool, fx: Effects): (r: Loaded)
    requires Valid(s) && (parent.Some? ==> parent.value < |s.nodes|)
    ensures Valid(r.scene) && |s.nodes| < |r.scene.nodes|
    ensures r.scene.world[..|s.world|] == s.world
    ensures r.created == Some(|s.nodes|)
    ensures r.scene.nodes[|s.nodes|].variant == v && r.scene.nodes[|s.nodes|].parent == parent
    ensures r.scene.world[|s.nodes|] == rec.worldMatrix
    decreases rec, 2, 0, 0
  {
    var n := |s.nodes|;
    AppendNode(s, parent, rec.worldMatrix, v);
    var s1 := Attach(s, parent, rec.worldMatrix, v);
    var r := LoadChildren(s1, n, rec, 0, startup, fx);
    LoadChildrenFacts(s1, n, rec, 0, startup, fx);
    assert r.scene.world[..|s1.world|] == s1.world;
    assert r.scene.world[..|s.world|] == s1.world[..|s.world|];
    assert r.scene.world[n] == s1.world[n];
    Loaded(r.scene, r.fx, Some(n))
  }

  /** The constructor's loop over child records `k..`. */
  function LoadChildren(s: Scene, n: nat, rec: Record, k: nat, startup: bool, fx: Effects): (r: Loaded)
    requires Valid(s) && n < |s.nodes| && k <= |rec.children|
    ensures Valid(r.scene) && |s.nodes| <= |r.scene.nodes|
    ensures r.scene.world[..|s.world|] == s.world
    ensures r.created.None?
    decreases rec, 0, |rec.children| - k, 0
  {
    if k == |rec.children| then
      Loaded(s, fx, None)
    else
      var c := Load(s, Some(n), rec.children[k], startup, fx);
      var r := LoadChildren(c.scene, n, rec, k + 1, startup, c.fx);
      assert r.scene.world[..|s.world|] == c.scene.world[..|c.scene.world|][..|s.world|];
      Loaded(r.scene, r.fx, None)
  }

  lemma ExtendsTrans(a: Scene, b: Scene, c: Scene, p: Option<nat>, q: Option<nat>)
    requires Extends(a, b, p) && Extends(b, c, q)
    requires q.Some? ==> q == p || |a.nodes| <= q.value
    ensures Extends(a, c, p)
  {
    assert c.world[..|a.world|] == b.world[..|a.world|];
    forall j | 0 <= j < |a.nodes|
      ensures c.nodes[j].children[..|a.nodes[j].children|] == a.nodes[j].children
    {
      assert c.nodes[j].children[..|b.nodes[j].children|][..|a.nodes[j].children|] == c.nodes[j].children[..|a.nodes[j].children|];
    }
  }

  lemma EffectsTrans(a: Effects, b: Effects, c: Effects)
    requires EffectsGrow(a, b) && EffectsGrow(b, c)
    ensures EffectsGrow(a, c)
  {
    assert c.log[..|a.log|] == c.log[..|b.log|][..|a.log|];
    assert c.registered[..|a.registered|] == c.registered[..|b.registered|][..|a.registered|];
  }

  /** What loading one record does: the scene only grows, effects only
      accumulate; a node is created exactly when the dispatch instantiates,
      at the next arena index, with the dispatched variant, the record's world
      matrix, linked at the end of its parent's child list, and with
      parent.world × local equal to the record's world matrix; records that
      create no node leave the scene untouched, even when they have children. */
  lemma {:induction false} LoadFacts(s: Scene, parent: Option<nat>, rec: Record, startup: bool, fx: Effects)
    requires Valid(s) && (parent.Some? ==> parent.value < |s.nodes|)
    ensures var r := Load(s, parent, rec, startup, fx);
            var d := Dispatch(rec.tag, rec.objectClass, startup);
            && Extends(s, r.scene, parent) && EffectsGrow(fx, r.fx)
            && (r.created.None? ==> r.scene == s)
            && (r.created.Some? <==> d.Instantiate?)
            && (r.created.Some? ==>
                  && r.created.value == |s.nodes| < |r.scene.nodes|
                  && r.scene.nodes[|s.nodes|].variant == d.variant
                  && r.scene.nodes[|s.nodes|].parent == parent
                  && r.scene.world[|s.nodes|] == rec.worldMatrix
                  && (parent.Some? ==>
                        && r.scene.nodes[parent.value].children == s.nodes[parent.value].children + [|s.nodes|]
                        && Compose(s.world[parent.value], r.scene.nodes[|s.nodes|].local) == rec.worldMatrix)
                  && (parent.None? ==> r.scene.nodes[|s.nodes|].local == rec.worldMatrix))
            && (d.Register? ==> r.fx == fx.(registered := fx.registered + [Registration(d.table, rec)]))
            && (d.Skip? ==> r == Loaded(s, fx, None))
            && (d.Unknown? ==>
                  && r.fx.seen == fx.seen + {rec.objectClass}
                  && r.fx.log == fx.log + (if rec.objectClass in fx.seen then [] else [rec.objectClass])
                  && r.fx.registered == fx.registered)
    decreases rec, 5, 0, 0
  {
    var d := Dispatch(rec.tag, rec.objectClass, startup);
    if d.Instantiate? {
      ConstructFacts(s, parent, rec, d.variant, startup, fx);
    } else {
      ExtendsRefl(s, parent);
      var r := Load(s, parent, rec, startup, fx);
      assert r.fx.log[..|fx.log|] == fx.log;
      assert r.fx.registered[..|fx.registered|] == fx.registered;
    }
  }

  lemma ExtendsRefl(s: Scene, parent: Option<nat>)
    requires Valid(s)
    ensures Extends(s, s, parent)
  {
    assert s.world[..|s.world|] == s.world;
    forall j | 0 <= j < |s.nodes|
      ensures s.nodes[j].children[..|s.nodes[j].children|] == s.nodes[j].children
    {
    }
  }

  lemma {:induction false} ConstructFacts(s: Scene, parent: Option<nat>, rec: Record, v: Variant, startup: bool, fx: Effects)
    requires Valid(s) && (parent.Some? ==> parent.value < |s.nodes|)
    ensures var r := Construct(s, parent, rec, v, startup, fx);
            var n := |s.nodes|;
            && Extends(s, r.scene, parent) && EffectsGrow(fx, r.fx)
            && r.created == Some(n) && n < |r.scene.nodes|
            && r.scene.nodes[n].variant == v && r.scene.nodes[n].parent == parent
            && r.scene.world[n] == rec.worldMatrix
            && (parent.Some? ==>
                  && r.scene.nodes[parent.value].children == s.nodes[parent.value].children + [n]
                  && Compose(s.world[parent.value], r.scene.nodes[n].local) == rec.worldMatrix)
            && (parent.None? ==> r.scene.nodes[n].local == rec.worldMatrix)
    decreases rec, 3, 0, 0
  {
    var n := |s.nodes|;
    AppendNode(s, parent, rec.worldMatrix, v);
    var s1 := Attach(s, parent, rec.worldMatrix, v);
    LoadChildrenFacts(s1, n, rec, 0, startup, fx);
    var r := LoadChildren(s1, n, rec, 0, startup, fx);
    ExtendsTrans(s, s1, r.scene, parent, Some(n));
    assert r.scene.world[n] == r.scene.world[..|s1.world|][n];
  }

  lemma {:induction false} LoadChildrenFacts(s: Scene, n: nat, rec: Record, k: nat, startup: bool, fx: Effects)
    requires Valid(s) && n < |s.nodes| && k <= |rec.children|
    ensures var r := LoadChildren(s, n, rec, k, startup, fx);
            Extends(s, r.scene, Some(n)) && EffectsGrow(fx, r.fx) && r.created == None
    decreases rec, 0, |rec.children| - k, 1
  {
    if k == |rec.children| {
      ExtendsRefl(s, Some(n));
      assert fx.log[..|fx.log|] == fx.log;
      assert fx.registered[..|fx.registered|] == fx.registered;
    } else {
      var c := Load(s, Some(n), rec.children[k], startup, fx);
      LoadFacts(s, Some(n), rec.children[k], startup, fx);
      LoadChildrenFacts(c.scene, n, rec, k + 1, startup, c.fx);
      var r := LoadChildren(c.scene, n, rec, k + 1, startup, c.fx);
      ExtendsTrans(s, c.scene, r.scene, Some(n), Some(n));
      EffectsTrans(fx, c.fx, r.fx);
    }
  }

  /** The constructor's loop appends to the node's child list exactly the
      non-null results of loading the child records, in declaration order. */
  lemma {:induction false} LoadChildrenOrder(s: Scene, n: nat, rec: Record, k: nat, startup: bool, fx: Effects)
    requires Valid(s) && n < |s.nodes| && k <= |rec.children|
    ensures var r := LoadChildren(s, n, rec, k, startup, fx);
            && (forall m | 0 <= m < |r.scene.nodes[n].children| :: r.scene.nodes[n].children[m] < |r.scene.nodes|)
            && |s.nodes[n].children| <= |r.scene.nodes[n].children|
            && VariantsAt(r.scene.nodes, r.scene.nodes[n].children[|s.nodes[n].children|..])
               == Produced(rec.children[k..], startup)
    decreases |rec.children| - k
  {
    var r := LoadChildren(s, n, rec, k, startup, fx);
    assert ChildrenLinked(r.scene.nodes, n);
    assert |s.nodes[n].children| <= |r.scene.nodes[n].children| by {
      LoadChildrenFacts(s, n, rec, k, startup, fx);
    }
    if k < |rec.children| {
      var child := rec.children[k];
      var c := Load(s, Some(n), child, startup, fx);
      LoadChildrenOrder(c.scene, n, rec, k + 1, startup, c.fx);
      assert r == LoadChildren(c.scene, n, rec, k + 1, startup, c.fx);
      assert rec.children[k..][1..] == rec.children[k + 1..];
      var d := Dispatch(child.tag, child.objectClass, startup);
      var old_ := s.nodes[n].children;
      var mid := c.scene.nodes[n].children;
      var fin := r.scene.nodes[n].children;
      if d.Instantiate? {
        var m := |s.nodes|;
        assert mid == old_ + [m] by {
          LoadFacts(s, Some(n), child, startup, fx);
        }
        assert fin[..|mid|] == mid && r.scene.nodes[m].variant == c.scene.nodes[m].variant by {
          LoadChildrenFacts(c.scene, n, rec, k + 1, startup, c.fx);
        }
        OrderStep(r.scene.nodes, old_, mid, fin, m, d.variant);
      }
    }
  }

  /** One appended child contributes its variant in front of the rest. */
  lemma OrderStep(nodes: seq<Node>, old_: seq<nat>, mid: seq<nat>, fin: seq<nat>, m: nat, v: Variant)
    requires |mid| <= |fin| && fin[..|mid|] == mid && mid == old_ + [m]
    requires m < |nodes| && nodes[m].variant == v
    requires forall x | 0 <= x < |fin| :: fin[x] < |nodes|
    ensures VariantsAt(nodes, fin[|old_|..]) == [v] + VariantsAt(nodes, fin[|mid|..])
  {
    assert fin[|old_|..] == [m] + fin[|mid|..];
  }

  /** The node constructor's child list holds the non-null results of loading
      its record's children, in declaration order. */
  lemma {:induction false} ConstructChildren(s: Scene, parent: Option<nat>, rec: Record, v: Variant, startup: bool, fx: Effects)
    requires Valid(s) && (parent.Some? ==> parent.value < |s.nodes|)
    ensures var r := Construct(s, parent, rec, v, startup, fx);
            && |s.nodes| < |r.scene.nodes|
            && (forall m | 0 <= m < |r.scene.nodes[|s.nodes|].children| :: r.scene.nodes[|s.nodes|].children[m] < |r.scene.nodes|)
            && VariantsAt(r.scene.nodes, r.scene.nodes[|s.nodes|].children) == Produced(rec.children, startup)
  {
    var n := |s.nodes|;
    AppendNode(s, parent, rec.worldMatrix, v);
    var s1 := Attach(s, parent, rec.worldMatrix, v);
    LoadChildrenOrder(s1, n, rec, 0, startup, fx);
    var r := LoadChildren(s1, n, rec, 0, startup, fx);
    assert rec.children[0..] == rec.children;
    assert r.scene.nodes[n].children[|s1.nodes[n].children|..] == r.scene.nodes[n].children;
  }

  /** An unknown class name is logged by the first record that carries it
      and never again, however many records follow. */
  lemma {:induction false} UnknownLoggedOnce(s: Scene, parent: Option<nat>, a: Record, b: Record, startup: bool, fx: Effects)
    requires Valid(s) && (parent.Some? ==> parent.value < |s.nodes|)
    requires a.tag.Unlisted? && b.tag.Unlisted? && a.objectClass == b.objectClass
    requires a.objectClass !in AnimatedClasses && a.objectClass !in SilentClasses
    requires a.objectClass !in fx.seen
    ensures var r1 := Load(s, parent, a, startup, fx);
            var r2 := Load(r1.scene, parent, b, startup, r1.fx);
            && r1.fx.log == fx.log + [a.objectClass]
            && r2.fx.log == r1.fx.log
            && r2.scene == s && r2.created.None?
  {
    DispatchFallback(a.tag, a.objectClass, startup);
    DispatchFallback(b.tag, b.objectClass, startup);
    LoadFacts(s, parent, a, startup, fx);
    var r1 := Load(s, parent, a, startup, fx);
    LoadFacts(r1.scene, parent, b, startup, r1.fx);
  }
}
