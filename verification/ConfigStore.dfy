/** The device configuration in two flash slots (components/airlink_config/airlink_config.c): records with a
    generation, written alternately, so that power loss during a write leaves the previous record. */
module ConfigStore {
  import opened Bits

  const GENERATION_MAX := 0xFFFF_FFFF

  /** `common` stands for the fields of schema 1, `added` for those schema 2 appended. */
  datatype Config = Config(common: nat, added: nat)

  /** What migration puts into the fields that schema 1 does not have. */
  const MIGRATED := 0

  /** A record as it lies in flash. */
  datatype Record = V1(generation: nat, common: nat) | V2(generation: nat, config: Config)

  /** A slot that holds a valid record, or nothing that passes the checks. */
  type Slot = Option<Record>

  datatype Flash = Flash(a: Slot, b: Slot)

  /** read_slot: schema 1 records are migrated while they are read. */
  function ConfigOf(r: Record): Config {
    match r
    case V1(_, common) => Config(common, MIGRATED)
    case V2(_, config) => config
  }

  predicate Odd(generation: nat) { generation % 2 == 1 }

  function SlotFor(f: Flash, generation: nat): Slot { if Odd(generation) then f.b else f.a }
  function OtherSlot(f: Flash, generation: nat): Slot { if Odd(generation) then f.a else f.b }

  function WithSlot(f: Flash, generation: nat, s: Slot): Flash {
    if Odd(generation) then f.(b := s) else f.(a := s)
  }

  /** The record a boot selects: the higher generation. */
  function Selected(f: Flash): Slot {
    if f.b.None? || (f.a.Some? && f.a.value.generation >= f.b.value.generation) then f.a else f.b
  }

  function Next(generation: nat): nat { if generation >= GENERATION_MAX then GENERATION_MAX else generation + 1 }

  /** How a write ends: acknowledged; or not, with the slot as before, damaged, or written after all. Power
      loss during a write is one of the last three, followed by a restart. */
  datatype Outcome = Acknowledged | Kept | Damaged | Unconfirmed

  function AfterWrite(f: Flash, config: Config, generation: nat, w: Outcome): Flash {
    match w
    case Kept => f
    case Damaged => WithSlot(f, generation, None)
    case Acknowledged => WithSlot(f, generation, Some(V2(generation, config)))
    case Unconfirmed => WithSlot(f, generation, Some(V2(generation, config)))
  }

  // ---------- A device over its life ----------

  datatype Ram = Ram(config: Config, generation: nat)

  /** `acked` is the last record a boot selected or a save acknowledged; `tried` the configurations whose
      writing was begun since then without being acknowledged. Both are history. */
  datatype Device = Device(flash: Flash, ram: Option<Ram>, acked: Option<Record>, tried: set<Config>)

  /** A write on top of record state: acknowledged it becomes the new state, else the device is as `failed` says. */
  function Written(d: Device, config: Config, generation: nat, w: Outcome, failed: Option<Ram>): Device {
    var flash := AfterWrite(d.flash, config, generation, w);
    if w == Acknowledged then Device(flash, Some(Ram(config, generation)), Some(V2(generation, config)), {})
    else Device(flash, failed, d.acked, d.tried + {config})
  }

  /** airlink_config_init. `defaults` are the defaults of this boot, `changed` the configuration after factory or
      provisioning credentials were applied, if they changed it. A failed write ends the boot. */
  function Boot(d: Device, defaults: Config, changed: Option<Config>, w: Outcome): Device {
    match Selected(d.flash)
    case None => Written(d.(ram := None), defaults, 1, w, None)
    case Some(r) =>
      var loaded := Device(d.flash, Some(Ram(ConfigOf(r), r.generation)), Some(r), {});
      if changed.None? && r.V2? then loaded
      else Written(loaded, if changed.Some? then changed.value else ConfigOf(r), Next(r.generation), w, None)
  }

  /** airlink_config_save on a running device; `cut` says that power is lost during the write. */
  function Save(d: Device, config: Config, w: Outcome, cut: bool): Device {
    if d.ram.None? then d
    else if cut then Written(d, config, Next(d.ram.value.generation), w, None).(ram := None)
    else Written(d, config, Next(d.ram.value.generation), w, d.ram)
  }

  function PowerLoss(d: Device): Device { d.(ram := None) }

  datatype Event =
    | Started(defaults: Config, changed: Option<Config>, outcome: Outcome)
    | Saved(config: Config, outcome: Outcome, cut: bool)
    | Lost

  function Step(d: Device, e: Event): Device {
    match e
    case Started(defaults, changed, w) => if d.ram.Some? then d else Boot(d, defaults, changed, w)
    case Saved(config, w, cut) => Save(d, config, w, cut)
    case Lost => PowerLoss(d)
  }

  function Run(d: Device, es: seq<Event>): Device
    decreases es
  {
    if es == [] then d else Run(Step(d, es[0]), es[1..])
  }

  // ---------- Crash atomicity ----------

  /** Even generations lie in the first slot, odd ones in the second. */
  predicate Placed(f: Flash) {
    (f.a.Some? ==> !Odd(f.a.value.generation)) && (f.b.Some? ==> Odd(f.b.value.generation))
  }

  /** A readable record other than the acknowledged one is older, or an attempt to write the next one. */
  ghost predicate Harmless(d: Device, o: Slot, generation: nat) {
    o.Some? ==>
      o.value.generation < generation || (o.value.generation == generation + 1 && o.value.V2? && o.value.config in d.tried)
  }

  ghost predicate Inv(d: Device) {
    && Placed(d.flash)
    && (d.acked.Some? ==>
          SlotFor(d.flash, d.acked.value.generation) == d.acked &&
          Harmless(d, OtherSlot(d.flash, d.acked.value.generation), d.acked.value.generation))
    && (d.acked.None? ==> d.flash.a.None? && (d.flash.b.Some? ==> d.flash.b.value.V2? && d.flash.b.value.config in d.tried))
    && (d.ram.Some? ==>
          d.acked.Some? && d.ram.value == Ram(ConfigOf(d.acked.value), d.acked.value.generation))
  }

  /** The generation the next write would build on is not the last one there is. */
  ghost predicate Unsaturated(d: Device) {
    && (d.flash.a.Some? ==> d.flash.a.value.generation < GENERATION_MAX)
    && (d.flash.b.Some? ==> d.flash.b.value.generation < GENERATION_MAX)
    && (d.ram.Some? ==> d.ram.value.generation < GENERATION_MAX)
  }

  ghost predicate AllUnsaturated(d: Device, es: seq<Event>)
    decreases es
  {
    Unsaturated(d) && (es == [] || AllUnsaturated(Step(d, es[0]), es[1..]))
  }

  lemma WriteKeeps(d: Device, config: Config, w: Outcome, failed: Option<Ram>)
    requires Inv(d) && d.acked.Some? && d.acked.value.generation < GENERATION_MAX
    requires failed.Some? ==> failed == d.ram
    ensures Inv(Written(d, config, Next(d.acked.value.generation), w, failed))
    ensures SlotFor(Written(d, config, Next(d.acked.value.generation), w, failed).flash, d.acked.value.generation) == d.acked
  {
  }

  /** What a boot selects is the acknowledged record, or the one being written when power was lost. */
  lemma SelectedIsAckedOrTried(d: Device)
    requires Inv(d)
    ensures
      var s := Selected(d.flash);
      match d.acked
      case Some(r) => s == Some(r) || (s.Some? && s.value.generation == r.generation + 1 && ConfigOf(s.value) in d.tried)
      case None => s.Some? ==> ConfigOf(s.value) in d.tried
  {
  }

  lemma StepKeeps(d: Device, e: Event)
    requires Inv(d) && Unsaturated(d)
    ensures Inv(Step(d, e))
  {
    match e
    case Started(defaults, changed, w) =>
      if d.ram.None? && Selected(d.flash).Some? {
        var r := Selected(d.flash).value;
        var loaded := Device(d.flash, Some(Ram(ConfigOf(r), r.generation)), Some(r), {});
        assert Inv(loaded);
        WriteKeeps(loaded, if changed.Some? then changed.value else ConfigOf(r), w, None);
      }
    case Saved(config, w, cut) =>
      if d.ram.Some? {
        WriteKeeps(d, config, w, None);
        WriteKeeps(d, config, w, d.ram);
      }
    case Lost =>
  }

  /** Over every run of boots, saves, failed writes and power losses, schema migration included: the record a
      boot selects is the last acknowledged one or one whose writing began since. */
  lemma {:induction false} CrashAtomic(d: Device, es: seq<Event>)
    requires Inv(d) && AllUnsaturated(d, es)
    ensures Inv(Run(d, es))
    ensures
      var d' := Run(d, es);
      var s := Selected(d'.flash);
      match d'.acked
      case Some(r) => s == Some(r) || (s.Some? && s.value.generation == r.generation + 1 && ConfigOf(s.value) in d'.tried)
      case None => s.Some? ==> ConfigOf(s.value) in d'.tried
    decreases es
  {
    hide Inv, Step, Unsaturated, Selected;
    if es == [] {
      SelectedIsAckedOrTried(d);
    } else {
      StepKeeps(d, es[0]);
      CrashAtomic(Step(d, es[0]), es[1..]);
    }
  }

  /** Any placed flash is a fine beginning: whatever its records are, one of them counts as acknowledged. */
  lemma AnyFlash(f: Flash)
    requires Placed(f)
    ensures Inv(Device(f, None, Selected(f), {}))
  {
  }

  /** A save touches only the slot that does not hold the acknowledged record, exactly as long as the generation
      can still grow: at the last generation a damaged write loses the configuration. */
  lemma SaveSafe(d: Device, config: Config)
    requires Inv(d) && d.ram.Some? && d.ram.value.generation <= GENERATION_MAX && d.tried == {}
    requires forall s :: s in {d.flash.a, d.flash.b} && s.Some? && s != d.acked ==>
      ConfigOf(s.value) !in {d.ram.value.config, config}
    ensures
      (forall w: Outcome :: Recovers(Save(d, config, w, true), d.ram.value.config, config))
      <==> d.ram.value.generation < GENERATION_MAX
  {
    if d.ram.value.generation < GENERATION_MAX {
      forall w: Outcome ensures Recovers(Save(d, config, w, true), d.ram.value.config, config) {
        RecoversNow(d, config, w);
      }
    } else {
      LastGeneration(d, config);
    }
  }

  /** The next boot loads one of these two. */
  predicate Recovers(d: Device, before: Config, after: Config) {
    Selected(d.flash).Some? && ConfigOf(Selected(d.flash).value) in {before, after}
  }

  lemma RecoversNow(d: Device, config: Config, w: Outcome)
    requires Inv(d) && d.ram.Some? && d.ram.value.generation < GENERATION_MAX && d.tried == {}
    ensures Recovers(Save(d, config, w, true), d.ram.value.config, config)
  {
  }

  lemma LastGeneration(d: Device, config: Config)
    requires Inv(d) && d.ram.Some? && d.ram.value.generation == GENERATION_MAX
    requires forall s :: s in {d.flash.a, d.flash.b} && s.Some? && s != d.acked ==>
      ConfigOf(s.value) !in {d.ram.value.config, config}
    ensures !Recovers(Save(d, config, Damaged, true), d.ram.value.config, config)
  {
    assert d.flash.a in {d.flash.a, d.flash.b} && d.flash.b in {d.flash.a, d.flash.b};
  }

  // ---------- What saving and booting achieve ----------

  /** A boot that writes nothing, because nothing changed and no record is old. */
  function Plain(d: Device, defaults: Config): Device { Boot(PowerLoss(d), defaults, None, Kept) }

  /** After a save the next boot loads the new configuration if the save was acknowledged or the write went through
      after all, and the old one otherwise; a device that was not told so keeps working with the old one. */
  lemma SavedThenLoaded(d: Device, config: Config, w: Outcome, cut: bool, defaults: Config)
    requires Inv(d) && d.ram.Some? && d.ram.value.generation < GENERATION_MAX && d.tried == {} && d.acked.value.V2?
    ensures
      var before, after := d.ram.value, Ram(config, d.ram.value.generation + 1);
      var d' := Save(d, config, w, cut);
      Plain(d', defaults).ram == Some(if w in {Acknowledged, Unconfirmed} then after else before) &&
      Plain(d', defaults).flash == d'.flash &&
      d'.ram == if cut then None else if w == Acknowledged then Some(after) else Some(before)
  {
  }

  /** A boot from a record of the old schema keeps its fields, fills in the new ones, and writes it back in the new
      schema under the next generation; from then on it is loaded as any other. */
  lemma MigratedOnce(d: Device, common: nat, generation: nat, defaults: Config)
    requires Placed(d.flash) && Selected(d.flash) == Some(V1(generation, common)) && generation < GENERATION_MAX
    ensures
      var d' := Boot(d, defaults, None, Acknowledged);
      d'.ram == Some(Ram(Config(common, MIGRATED), generation + 1)) &&
      Selected(d'.flash) == Some(V2(generation + 1, Config(common, MIGRATED))) &&
      Plain(d', defaults) == d' && OtherSlot(d'.flash, generation + 1) == Some(V1(generation, common))
  {
  }

  /** An empty flash yields the defaults, which are written before the device runs. */
  lemma DefaultsWritten(d: Device, defaults: Config, other: Config, changed: Option<Config>, w: Outcome)
    requires d.flash == Flash(None, None)
    ensures
      var d' := Boot(d, defaults, changed, w);
      d'.ram == (if w == Acknowledged then Some(Ram(defaults, 1)) else None) &&
      (w in {Acknowledged, Unconfirmed} ==> Plain(d', other).ram == Some(Ram(defaults, 1)))
  {
  }

  // ---------- The store as the source keeps it ----------

  class Store {
    var slotA: Slot
    var slotB: Slot
    var config: Config
    var generation: nat

    ghost function Contents(): Flash
      reads this
    {
      Flash(slotA, slotB)
    }

    /** write_record */
    method WriteRecord(candidate: Config, next: nat, w: Outcome) returns (ok: bool)
      modifies this
      ensures ok == (w == Acknowledged) && config == old(config) && generation == old(generation)
      ensures Contents() == AfterWrite(old(Contents()), candidate, next, w)
    {
      var record := V2(next, candidate);
      if w != Kept {
        var slot := if w == Damaged then None else Some(record);
        if Odd(next) {
          slotB := slot;
        } else {
          slotA := slot;
        }
      }
      return w == Acknowledged;
    }

    /** save_locked: the configuration in memory changes only when the write is acknowledged. */
    method SaveLocked(candidate: Config, w: Outcome) returns (ok: bool)
      modifies this
      ensures ok == (w == Acknowledged)
      ensures Contents() == AfterWrite(old(Contents()), candidate, Next(old(generation)), w)
      ensures Ram(config, generation) == if ok then Ram(candidate, Next(old(generation))) else old(Ram(config, generation))
    {
      var next := if generation >= GENERATION_MAX then GENERATION_MAX else generation + 1;
      ok := WriteRecord(candidate, next, w);
      if ok {
        config, generation := candidate, next;
      }
    }

    /** airlink_config_init, from the flash a previous life left. */
    method Load(defaults: Config, changed: Option<Config>, w: Outcome) returns (ok: bool)
      modifies this
      ensures
        var d := Boot(Device(old(Contents()), None, None, {}), defaults, changed, w);
        Contents() == d.flash && (ok <==> d.ram.Some?) && (ok ==> d.ram == Some(Ram(config, generation)))
    {
      var usesDefaults, migrated := false, false;
      if slotA.Some? || slotB.Some? {
        var selected := if slotB.None? || (slotA.Some? && slotA.value.generation >= slotB.value.generation)
                        then slotA.value else slotB.value;
        config, generation, migrated := ConfigOf(selected), selected.generation, selected.V1?;
      } else {
        config, generation, usesDefaults := defaults, 1, true;
      }
      if usesDefaults {
        ok := WriteRecord(config, generation, w);
      } else if changed.Some? || migrated {
        config := if changed.Some? then changed.value else config;
        ok := SaveLocked(config, w);
      } else {
        ok := true;
      }
    }
  }
}
