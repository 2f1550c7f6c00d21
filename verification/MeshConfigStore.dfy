/** Durable mesh network configuration (components/airlink_mesh/airlink_mesh_config.c): two record slots by
    parity of the generation, two pending slots for a configuration that is prepared but not yet in force. */
module MeshConfigStore {
  import opened Bits

  const GENERATION_MAX := 0xFFFF_FFFF

  datatype Role = NoRole | AirNode | GroundRoot

  /** `network` stands for everything but the role; it is what a transaction's digest identifies. */
  datatype MeshConfig = MeshConfig(role: Role, network: nat)

  datatype Record = Record(generation: nat, config: MeshConfig)

  /** What reading a slot gives: a record that passes every check, or nothing. */
  type Slot = Option<Record>

  datatype Flash = Flash(meshA: Slot, meshB: Slot, pendingA: Slot, pendingB: Slot)

  /** Flash and the configuration in force. */
  datatype Store = Store(flash: Flash, config: MeshConfig, generation: nat)

  const DEFAULTS := MeshConfig(NoRole, 0)

  datatype Result = Ok | InvalidArgument | InvalidState | NotFound | StorageError

  datatype Stepped = Stepped(store: Store, result: Result)

  /** The newer of two slots; the first one on a tie. */
  function Selected(a: Slot, b: Slot): Slot {
    if a.Some? && (b.None? || a.value.generation >= b.value.generation) then a else b
  }

  function Boot(f: Flash): Store {
    match Selected(f.meshA, f.meshB)
    case Some(r) => Store(f, r.config, r.generation)
    case None => Store(f, DEFAULTS, 0)
  }

  predicate Odd(generation: nat) { generation % 2 == 1 }

  function WithMesh(f: Flash, r: Record): Flash {
    if Odd(r.generation) then f.(meshB := Some(r)) else f.(meshA := Some(r))
  }

  function WithPending(f: Flash, r: Record): Flash {
    if Odd(r.generation) then f.(pendingB := Some(r)) else f.(pendingA := Some(r))
  }

  function PendingFor(f: Flash, generation: nat): Slot { if Odd(generation) then f.pendingB else f.pendingA }
  function OtherPending(f: Flash, generation: nat): Slot { if Odd(generation) then f.pendingA else f.pendingB }

  /** airlink_mesh_config_save; `valid` is the validation's verdict, `written` whether the write succeeds. */
  function Save(s: Store, config: MeshConfig, valid: bool, written: bool): Stepped {
    if !valid then Stepped(s, InvalidArgument)
    else if s.generation == GENERATION_MAX then Stepped(s, InvalidState)
    else if !written then Stepped(s, StorageError)
    else Stepped(Store(WithMesh(s.flash, Record(s.generation + 1, config)), config, s.generation + 1), Ok)
  }

  /** airlink_mesh_config_stage */
  function Stage(s: Store, config: MeshConfig, generation: nat, valid: bool, written: bool): Stepped {
    if !valid || generation <= s.generation then Stepped(s, InvalidArgument)
    else if !written then Stepped(s, StorageError)
    else Stepped(s.(flash := WithPending(s.flash, Record(generation, config))), Ok)
  }

  /** airlink_mesh_config_abort_staged; each erasure may fail. */
  function AbortStaged(s: Store, eraseA: bool, eraseB: bool): Stepped {
    Stepped(s.(flash := s.flash.(pendingA := if eraseA then None else s.flash.pendingA,
                                 pendingB := if eraseB then None else s.flash.pendingB)),
            if eraseA && eraseB then Ok else StorageError)
  }

  /** airlink_mesh_config_commit_staged: the pending record with the highest generation comes into force. */
  function CommitStaged(s: Store, written: bool, eraseA: bool, eraseB: bool): Stepped {
    match Selected(s.flash.pendingA, s.flash.pendingB)
    case None => Stepped(s, NotFound)
    case Some(r) =>
      if r.generation <= s.generation then Stepped(s, NotFound)
      else if !written then Stepped(s, StorageError)
      else AbortStaged(Store(WithMesh(s.flash, r), r.config, r.generation), eraseA, eraseB)
  }

  /** The prepared record comes into force by a commit exactly when the other pending slot holds no newer one. */
  lemma CommitInstallsPrepared(s: Store, r: Record, eraseA: bool, eraseB: bool)
    requires PendingFor(s.flash, r.generation) == Some(r) && r.generation > s.generation
    requires var o := OtherPending(s.flash, r.generation); o.Some? ==> Odd(o.value.generation) != Odd(r.generation)
    ensures
      var s' := CommitStaged(s, true, eraseA, eraseB).store;
      var o := OtherPending(s.flash, r.generation);
      (s'.config == r.config && s'.generation == r.generation <==>
       o.None? || o.value.generation < r.generation) &&
      s'.generation > s.generation
  {
  }

  // ---------- Power loss ----------

  /** While a record is written its slot may read as before, as nothing, or as the new record. */
  predicate Torn(before: Slot, after: Slot, r: Record) { after == before || after == None || after == Some(r) }

  predicate TornMesh(before: Flash, after: Flash, r: Record) {
    if Odd(r.generation) then after == before.(meshB := after.meshB) && Torn(before.meshB, after.meshB, r)
    else after == before.(meshA := after.meshA) && Torn(before.meshA, after.meshA, r)
  }

  /** The record in force is the one a boot would load, from the slot of its parity. */
  predicate Settled(s: Store) {
    && Boot(s.flash) == s
    && (s.flash.meshA.Some? ==> !Odd(s.flash.meshA.value.generation))
    && (s.flash.meshB.Some? ==> Odd(s.flash.meshB.value.generation))
  }

  /** Writing a newer record survives power loss, for whatever the torn slot reads: boot loads the old record
      or the new one. That holds if the generation grows by an odd step, so that the write does not touch the
      record in force; with an even step there is a tear that loses it. */
  lemma CrashSafeWrite(s: Store, r: Record)
    requires Settled(s) && r.generation > s.generation
    ensures
      (forall f :: TornMesh(s.flash, f, r) ==> InForce(Boot(f), s.config, s.generation) || InForce(Boot(f), r.config, r.generation))
      <==> (Odd(r.generation) != Odd(s.generation) || (s.config == DEFAULTS && s.generation == 0))
  {
    if Odd(r.generation) == Odd(s.generation) {
      var lost := if Odd(r.generation) then s.flash.(meshB := None) else s.flash.(meshA := None);
      assert TornMesh(s.flash, lost, r);
    }
  }

  /** What is pending lies in the slot of its parity. */
  predicate PendingPlaced(f: Flash) {
    && (f.pendingA.Some? ==> !Odd(f.pendingA.value.generation))
    && (f.pendingB.Some? ==> Odd(f.pendingB.value.generation))
  }

  /** The record in force is in flash. */
  predicate Recorded(f: Flash, config: MeshConfig, generation: nat) {
    Some(Record(generation, config)) in {f.meshA, f.meshB}
  }

  /** Something newer than the record in force is pending. */
  predicate Newer(s: Store) {
    exists slot :: slot in {s.flash.pendingA, s.flash.pendingB} && slot.Some? && slot.value.generation > s.generation
  }

  predicate InForce(s: Store, config: MeshConfig, generation: nat) { s.config == config && s.generation == generation }

  /** An ordinary save always takes the next generation, so it is always safe. */
  lemma SaveCrashSafe(s: Store, config: MeshConfig, f: Flash)
    requires Settled(s) && s.generation < GENERATION_MAX && TornMesh(s.flash, f, Record(s.generation + 1, config))
    ensures InForce(Boot(f), s.config, s.generation) || InForce(Boot(f), config, s.generation + 1)
  {
  }

  // ---------- The store as the source keeps it ----------

  class MeshStore {
    var meshA: Slot
    var meshB: Slot
    var pendingA: Slot
    var pendingB: Slot
    var config: MeshConfig
    var generation: nat

    ghost function Value(): Store
      reads this
    {
      Store(Flash(meshA, meshB, pendingA, pendingB), config, generation)
    }

    /** airlink_mesh_config_init: a readable record of the highest generation is in force, the defaults when there is
        none. */
    constructor (meshA: Slot, meshB: Slot, pendingA: Slot, pendingB: Slot)
      ensures Value() == Boot(Flash(meshA, meshB, pendingA, pendingB))
      ensures forall slot :: slot in {meshA, meshB} && slot.Some? ==> slot.value.generation <= generation
      ensures meshA.Some? || meshB.Some? ==> Recorded(Value().flash, config, generation)
      ensures meshA.None? && meshB.None? ==> InForce(Value(), DEFAULTS, 0)
    {
      this.meshA, this.meshB, this.pendingA, this.pendingB := meshA, meshB, pendingA, pendingB;
      var selected := if meshA.Some? && (meshB.None? || meshA.value.generation >= meshB.value.generation) then meshA
                      else if meshB.Some? then meshB else None;
      if selected == None {
        config, generation := DEFAULTS, 0;
      } else {
        config, generation := selected.value.config, selected.value.generation;
      }
    }

    method WriteMesh(r: Record, written: bool) returns (ok: bool)
      modifies this
      ensures ok == written
      ensures Value() == if written then old(Value()).(flash := WithMesh(old(Value()).flash, r)) else old(Value())
    {
      if written {
        if Odd(r.generation) {
          meshB := Some(r);
        } else {
          meshA := Some(r);
        }
      }
      return written;
    }

    /** airlink_mesh_config_save. On success, and only then, the candidate is in force under the next generation; a
        boot finds it, and the record it replaces is still in flash, as is everything pending. */
    method SaveConfig(candidate: MeshConfig, valid: bool, written: bool) returns (r: Result)
      modifies this
      ensures Stepped(Value(), r) == Save(old(Value()), candidate, valid, written)
      ensures r == Ok <==> generation > old(generation)
      ensures r == Ok <==> valid && old(generation) != GENERATION_MAX && written
      ensures r == Ok ==> InForce(Value(), candidate, old(generation) + 1)
      ensures r != Ok ==> Value() == old(Value())
      ensures old(Settled(Value())) ==> Settled(Value())
      ensures old(Settled(Value())) && old(Recorded(Value().flash, config, generation)) ==>
        Recorded(Value().flash, old(config), old(generation))
      ensures pendingA == old(pendingA) && pendingB == old(pendingB)
    {
      if !valid {
        return InvalidArgument;
      }
      if generation == GENERATION_MAX {
        return InvalidState;
      }
      var next := generation + 1;
      var ok := WriteMesh(Record(next, candidate), written);
      if !ok {
        return StorageError;
      }
      config, generation := candidate, next;
      return Ok;
    }

    /** airlink_mesh_config_stage. What is in force stays in force, now and after a boot; a successful commit that
        follows installs the candidate unless something newer is pending. */
    method StageConfig(candidate: MeshConfig, next: nat, valid: bool, written: bool) returns (r: Result)
      modifies this
      ensures Stepped(Value(), r) == Stage(old(Value()), candidate, next, valid, written)
      ensures r == Ok <==> valid && next > generation && written
      ensures config == old(config) && generation == old(generation) && Boot(Value().flash).config == old(Boot(Value().flash).config)
      ensures old(Settled(Value())) ==> Settled(Value())
      ensures old(PendingPlaced(Value().flash)) ==> PendingPlaced(Value().flash)
      ensures r == Ok && old(PendingPlaced(Value().flash)) ==>
        var o := OtherPending(Value().flash, next);
        o.None? || o.value.generation < next <==> InForce(CommitStaged(Value(), true, true, true).store, candidate, next)
    {
      if !valid {
        return InvalidArgument;
      }
      if next <= generation {
        return InvalidArgument;
      }
      if !written {
        return StorageError;
      }
      if Odd(next) {
        pendingB := Some(Record(next, candidate));
      } else {
        pendingA := Some(Record(next, candidate));
      }
      return Ok;
    }

    method AbortStagedConfig(eraseA: bool, eraseB: bool) returns (r: Result)
      modifies this
      ensures Stepped(Value(), r) == AbortStaged(old(Value()), eraseA, eraseB)
    {
      if eraseA {
        pendingA := None;
      }
      if eraseB {
        pendingB := None;
      }
      return if eraseA && eraseB then Ok else StorageError;
    }

    /** airlink_mesh_config_commit_staged. The generation grows exactly when something newer is pending and is written;
        what comes into force is the newest pending record. A failed erasure is reported although it is in force. */
    method CommitStagedConfig(written: bool, eraseA: bool, eraseB: bool) returns (r: Result)
      modifies this
      ensures Stepped(Value(), r) == CommitStaged(old(Value()), written, eraseA, eraseB)
      ensures old(Settled(Value())) && old(PendingPlaced(Value().flash)) ==> Settled(Value()) && PendingPlaced(Value().flash)
      ensures generation > old(generation) <==> written && old(Newer(Value()))
      ensures generation == old(generation) ==> Value() == old(Value()) && r != Ok
      ensures generation > old(generation) ==>
        && Some(Record(generation, config)) in {old(pendingA), old(pendingB)}
        && (forall slot :: slot in {old(pendingA), old(pendingB)} && slot.Some? ==> slot.value.generation <= generation)
        && (r == Ok <==> eraseA && eraseB)
      ensures r == Ok ==> pendingA == pendingB == None
    {
      var selected := if pendingA.Some? && (pendingB.None? || pendingA.value.generation >= pendingB.value.generation)
                      then pendingA else if pendingB.Some? then pendingB else None;
      if selected == None || selected.value.generation <= generation {
        return NotFound;
      }
      var ok := WriteMesh(selected.value, written);
      if !ok {
        return StorageError;
      }
      config, generation := selected.value.config, selected.value.generation;
      r := AbortStagedConfig(eraseA, eraseB);
    }
  }
}
