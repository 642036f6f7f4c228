/** What a detection round gets round to: which listed devices it probes, and for which missing ones it raises an
    alarm. */
module BusRounds {
  import opened BusSpec

  // --- What a scan gets round to

  /** A probe of the name is among the events from `from` on. */
  ghost predicate Tried(trace: seq<Event>, from: nat, name: string) {
    exists i | from <= i < |trace| :: trace[i].Probed? && trace[i].medium == Serial && trace[i].name == name
  }

  /** Nothing speaks against probing a tty. */
  predicate ToProbe(s: State, config: Config, tty: string, a: TtyAnswers) {
    tty !in s.notSerial && "all" !in config.doNotProbe && tty !in config.doNotProbe && !a.inUse
  }

  /** At most an opening has been added. */
  ghost predicate AtMostOpened(s: State, s': State) {
    && s'.notSerial == s.notSerial && s'.clock == s.clock && s.trace <= s'.trace
    && forall i | |s.trace| <= i < |s'.trace| :: s'.trace[i].Opened?
  }

  lemma OpenOpens(s: State, a: Answer)
    ensures AtMostOpened(s, Open(s, a))
  {
  }

  lemma OpenFoundOpens(s: State, config: Config, a: Answer)
    ensures AtMostOpened(s, OpenFound(s, config, a))
  {
    hide FindSpecified, Open, Update;
    OpenOpens(s, a);
    var i := FindSpecified(config.supplied, a.detected);
    if i.Some? {
      OpenOpens(s, a.(detected := Update(a.detected, config.supplied[i.value])));
    }
  }

  lemma TtyStepTries(s: State, config: Config, tty: string, a: TtyAnswers, name: string)
    ensures var s' := TtyStep(s, config, tty, a);
            && s'.clock == s.clock && s.trace <= s'.trace
            && (name != tty ==> (name in s'.notSerial <==> name in s.notSerial))
            && (Tried(s'.trace, |s.trace|, name) <==> name == tty && ToProbe(s, config, tty, a))
  {
    hide OpenFound;
    if ToProbe(s, config, tty, a) {
      var failed := a.probe.detected.kind == Unknown;
      var s1 := s.(trace := s.trace + [Probed(Serial, tty, failed)]);
      OpenFoundOpens(s1, config, a.probe);
      assert TtyStep(s, config, tty, a).trace[|s.trace|] == Probed(Serial, tty, failed);
    }
  }

  lemma TriedLater(a: seq<Event>, b: seq<Event>, from: nat, name: string)
    requires a <= b && from <= |a|
    ensures Tried(b, from, name) <==> Tried(a, from, name) || Tried(b, |a|, name)
  {
    if i :| from <= i < |a| && a[i].Probed? && a[i].medium == Serial && a[i].name == name {
      assert b[i] == a[i];
    }
    if i :| from <= i < |b| && b[i].Probed? && b[i].medium == Serial && b[i].name == name {
      if i < |a| {
        assert a[i] == b[i];
      }
    }
  }

  lemma {:induction false} TtysStepTries(s: State, config: Config, ttys: seq<string>, env: Environment, k: nat, n: nat)
    requires k <= |ttys| && n < |ttys| && forall m | 0 <= m < |ttys| && m != n :: ttys[m] != ttys[n]
    ensures var s' := TtysStep(s, config, ttys[..k], env);
            && s'.clock == s.clock + k && s.trace <= s'.trace
            && (k <= n ==> (ttys[n] in s'.notSerial <==> ttys[n] in s.notSerial))
            && (Tried(s'.trace, |s.trace|, ttys[n])
                <==> n < k && ToProbe(s, config, ttys[n], env.tty(s.clock + n)))
    decreases k
  {
    if k == 0 {
      TtysNone(s, config, ttys[..0], env);
    } else {
      hide TtyStep, TtysStep, Tried;
      TtysStepTries(s, config, ttys, env, k - 1, n);
      TtysNext(s, config, ttys, env, k - 1);
      var s1 := TtysStep(s, config, ttys[..k - 1], env);
      TtyStepTries(Tick(s1), config, ttys[k - 1], env.tty(s1.clock), ttys[n]);
      TriedLater(s1.trace, TtysStep(s, config, ttys[..k], env).trace, |s.trace|, ttys[n]);
    }
  }

  /** A scan probes a listed tty if and only if it is not ignored, not forbidden and not in use when its turn comes. */
  lemma ScanProbesIff(s: State, config: Config, env: Environment, n: nat)
    requires var ttys := env.listing(s.clock);
             n < |ttys| && forall m | 0 <= m < |ttys| && m != n :: ttys[m] != ttys[n]
    ensures var tty := env.listing(s.clock)[n];
            Tried(AutoScan(s, config, env).trace, |s.trace|, tty)
            <==> ToProbe(s, config, tty, env.tty(s.clock + 1 + n))
  {
    hide TtysStep, Tried;
    var ttys := env.listing(s.clock);
    var s1 := Listing(Tick(s), ttys);
    TtysStepTries(s1, config, ttys, env, |ttys|, n);
    assert ttys[..|ttys|] == ttys;
    TriedLater(s1.trace, AutoScan(s, config, env).trace, |s.trace|, ttys[n]);
    ListingTriesNothing(s, ttys, ttys[n]);
  }

  lemma ListingTriesNothing(s: State, ttys: seq<string>, name: string)
    ensures !Tried(Listing(Tick(s), ttys).trace, |s.trace|, name)
  {
  }

  // --- Which configured devices are missed

  /** A configured device is handled if and only if its own step handled it or an open device stands for it. */
  lemma {:induction false} MarkedIff(flags: seq<bool>, supplied: seq<SpecifiedDevice>, devices: seq<Device>, i: nat)
    requires |flags| == |supplied| && i < |flags|
    ensures Marked(flags, supplied, devices)[i]
       <==> flags[i] || exists w | w in devices :: StandsFor(supplied, w.detected, i)
  {
    hide FindSpecified, StandsFor;
    if devices != [] {
      var n := |devices| - 1;
      MarkedIff(flags, supplied, devices[..n], i);
      FindSpecifiedIff(supplied, devices[n].detected);
      assert devices == devices[..n] + [devices[n]];
    }
  }

  function Unhandled(flags: seq<bool>): nat {
    if flags == [] then 0
    else Unhandled(flags[..|flags| - 1]) + (if flags[|flags| - 1] then 0 else 1)
  }

  ghost predicate IsAlarmed(trace: seq<Event>, from: nat, position: nat) {
    exists i | from <= i < |trace| :: trace[i].Alarmed? && trace[i].position == position
  }

  lemma AlarmStepIff(s: State, n: nat, now: int, from: nat, position: nat)
    requires from <= |s.trace|
    ensures var s' := AlarmStep(s, n, now);
            && s'.clock == s.clock && s.trace <= s'.trace
            && (position != n ==> LastAlarm(s'.lastAlarm, position) == LastAlarm(s.lastAlarm, position))
            && (IsAlarmed(s'.trace, from, position)
                <==> IsAlarmed(s.trace, from, position) || (position == n && now - LastAlarm(s.lastAlarm, n) > 60))
  {
    var s' := AlarmStep(s, n, now);
    if j :| from <= j < |s.trace| && s.trace[j].Alarmed? && s.trace[j].position == position {
      assert s'.trace[j] == s.trace[j];
    }
    if now - LastAlarm(s.lastAlarm, n) > 60 {
      assert s'.trace[|s.trace|] == Alarmed(n, now);
    }
  }

  /** The loop over the flags raises an alarm for a device if and only if its flag is not set and its last alarm is more
      than sixty seconds ago. */
  lemma {:induction false} AlarmedIff(s: State, flags: seq<bool>, env: Environment, position: nat)
    ensures var s' := AlarmsStep(s, flags, env);
            && s'.clock == s.clock + Unhandled(flags) && s.trace <= s'.trace
            && (position >= |flags| ==> LastAlarm(s'.lastAlarm, position) == LastAlarm(s.lastAlarm, position))
            && (IsAlarmed(s'.trace, |s.trace|, position)
                <==> && position < |flags| && !flags[position]
                     && env.now(s.clock + Unhandled(flags[..position])) - LastAlarm(s.lastAlarm, position) > 60)
    decreases |flags|
  {
    if flags != [] {
      hide AlarmStep, AlarmsStep, IsAlarmed, LastAlarm;
      var n := |flags| - 1;
      assert flags[..n + 1] == flags;
      AlarmsNext(s, flags, env, n);
      var s' := AlarmsStep(s, flags[..n], env);
      AlarmedIff(s, flags[..n], env, position);
      AlarmStepIff(Tick(s'), n, env.now(s'.clock), |s.trace|, position);
      if position < n {
        assert flags[..n][..position] == flags[..position];
      }
    }
  }

  /** Events have been added, none of them an alarm. */
  ghost predicate NoAlarm(s: State, s': State) {
    && s.trace <= s'.trace && s'.lastAlarm == s.lastAlarm
    && forall i | |s.trace| <= i < |s'.trace| :: !s'.trace[i].Alarmed?
  }

  lemma NoAlarmTwice(s: State, s': State, s'': State)
    requires NoAlarm(s, s') && NoAlarm(s', s'')
    ensures NoAlarm(s, s'')
  {
    forall i | |s.trace| <= i < |s''.trace|
      ensures !s''.trace[i].Alarmed?
    {
      if i < |s'.trace| {
        assert s''.trace[i] == s'.trace[i];
      }
    }
  }

  lemma CheckForDeadIsSilent(s: State, config: Config, working: Device -> bool)
    ensures NoAlarm(s, CheckForDead(s, config, working))
  {
    hide Having;
  }

  lemma OpenIsSilent(s: State, a: Answer)
    ensures NoAlarm(s, Open(s, a))
  {
  }

  lemma FileStepIsSilent(s: State, file: string, a: DeviceAnswers)
    ensures NoAlarm(s, FileStep(s, file, a))
  {
    hide Open;
    if !(a.fileInUse || file in s.simulationFiles || file in s.doNotOpen) {
      var s1 := if file in s.notSerial then Listing(s, a.ttys) else s;
      var d := a.file.detected;
      var failed := d.kind == Unknown && a.isStillCharacterDevice;
      var s2 := s1.(trace := s1.trace + [FileDetected(file, failed, Once(d))],
                    notSerial := s1.notSerial + (if failed then {file} else {}),
                    doNotOpen := s1.doNotOpen + (if Once(d) then {file} else {}));
      OpenIsSilent(s2, a.file);
      NoAlarmTwice(s, s1, s2);
      NoAlarmTwice(s, s2, Open(s2, a.file));
    }
  }

  lemma DeviceStepIsSilent(s: State, all: bool, sd: SpecifiedDevice, a: DeviceAnswers)
    ensures NoAlarm(s, DeviceStep(s, all, sd, a))
  {
    hide FileStep, Open;
    var c := s.(trace := s.trace + [CommandDetected(sd.index)]);
    OpenIsSilent(c, a.command);
    NoAlarmTwice(s, c, Open(c, a.command));
    var s1 := CommandStep(s, sd, a);
    var h := s1.(trace := s1.trace + [HexDetected(sd.hex)]);
    OpenIsSilent(h, a.hex);
    NoAlarmTwice(s1, h, Open(h, a.hex));
    var s2 := HexStep(s1, sd, a);
    NoAlarmTwice(s, s1, s2);
    FileStepIsSilent(s2, sd.file, a);
    NoAlarmTwice(s, s2, FileStep(s2, sd.file, a));
  }

  lemma {:induction false} DevicesStepIsSilent(s: State, all: bool, supplied: seq<SpecifiedDevice>, env: Environment)
    ensures NoAlarm(s, DevicesStep(s, all, supplied, env))
  {
    hide DeviceStep;
    if supplied != [] {
      var n := |supplied| - 1;
      DevicesStepIsSilent(s, all, supplied[..n], env);
      var s' := DevicesStep(s, all, supplied[..n], env);
      DeviceStepIsSilent(Tick(s'), all, supplied[n], env.device(s'.clock));
      NoAlarmTwice(s, Tick(s'), DevicesStep(s, all, supplied, env));
    }
  }

  lemma OpenFoundIsSilent(s: State, config: Config, a: Answer, e: Event)
    requires !e.Alarmed?
    ensures NoAlarm(s, OpenFound(s.(trace := s.trace + [e]), config, a))
  {
    hide Open, FindSpecified, Update;
    var s1 := s.(trace := s.trace + [e]);
    var s2 := OpenFound(s1, config, a);
    OpenIsSilent(s1, a);
    var i := FindSpecified(config.supplied, a.detected);
    if i.Some? {
      OpenIsSilent(s1, a.(detected := Update(a.detected, config.supplied[i.value])));
    }
    NoAlarmTwice(s, s1, s2);
  }

  lemma {:induction false} TtysStepIsSilent(s: State, config: Config, ttys: seq<string>, env: Environment)
    ensures NoAlarm(s, TtysStep(s, config, ttys, env))
  {
    hide OpenFound;
    if ttys != [] {
      var n := |ttys| - 1;
      TtysStepIsSilent(s, config, ttys[..n], env);
      var s' := TtysStep(s, config, ttys[..n], env);
      var a := env.tty(s'.clock);
      OpenFoundIsSilent(Tick(s'), config, a.probe, Probed(Serial, ttys[n], false));
      NoAlarmTwice(s, Tick(s'), TtysStep(s, config, ttys, env));
    }
  }

  lemma {:induction false} RadiosStepIsSilent(s: State, config: Config, serials: seq<string>, env: Environment)
    ensures NoAlarm(s, RadiosStep(s, config, serials, env))
  {
    hide OpenFound;
    if serials != [] {
      var n := |serials| - 1;
      RadiosStepIsSilent(s, config, serials[..n], env);
      var s' := RadiosStep(s, config, serials[..n], env);
      var a := env.radio(s'.clock);
      OpenFoundIsSilent(Tick(s'), config, a.probe.(detected := a.probe.detected.(id := serials[n])),
                        Probed(Radio, serials[n], false));
      NoAlarmTwice(s, Tick(s'), RadiosStep(s, config, serials, env));
    }
  }

  lemma AutoScanIsSilent(s: State, config: Config, env: Environment)
    ensures NoAlarm(s, AutoScan(s, config, env))
  {
    hide TtysStep;
    var ttys := env.listing(s.clock);
    var s' := Listing(Tick(s), ttys);
    TtysStepIsSilent(s', config, ttys, env);
    NoAlarmTwice(s, s', AutoScan(s, config, env));
  }

  lemma RadioScanIsSilent(s: State, config: Config, env: Environment)
    ensures NoAlarm(s, RadioScan(s, config, env))
  {
    hide RadiosStep;
    var a := env.radios(s.clock);
    var s1 := FindPrograms(Tick(s), a);
    var s2 := RadioListed(s1, a.serials);
    RadiosStepIsSilent(s2, config, a.serials, env);
    NoAlarmTwice(s, s2, RadiosStep(s2, config, a.serials, env));
  }

  lemma ScansAreSilent(s: State, config: Config, all: bool, env: Environment)
    ensures NoAlarm(s, Scans(s, config, all, env))
  {
    hide AutoScan, RadioScan, MustScan;
    AutoScanIsSilent(s, config, env);
    var s' := if MustScan(config, all, Serial) then AutoScan(s, config, env) else s;
    RadioScanIsSilent(s', config, env);
    NoAlarmTwice(s, s', Scans(s, config, all, env));
  }

  /** The state and the handled flags with which a round comes to its alarms. */
  ghost function BeforeAlarms(s: State, config: Config, all: bool, env: Environment): (r: (State, seq<bool>))
    ensures |r.1| == |config.supplied|
  {
    var s1 := CheckForDead(Tick(s), config, env.working(s.clock));
    (Scans(DevicesStep(s1, all, config.supplied, env), config, all, env), DevicesFlags(s1, all, config.supplied, env))
  }

  lemma BeforeAlarmsIsSilent(s: State, config: Config, all: bool, env: Environment)
    ensures NoAlarm(s, BeforeAlarms(s, config, all, env).0)
  {
    hide CheckForDead, DevicesStep, DevicesFlags, Scans;
    var s1 := CheckForDead(Tick(s), config, env.working(s.clock));
    CheckForDeadIsSilent(Tick(s), config, env.working(s.clock));
    var s2 := DevicesStep(s1, all, config.supplied, env);
    DevicesStepIsSilent(s1, all, config.supplied, env);
    NoAlarmTwice(s, s1, s2);
    ScansAreSilent(s2, config, all, env);
    NoAlarmTwice(s, s2, Scans(s2, config, all, env));
  }

  /** A configured device that neither its own step nor any open device accounts for. */
  ghost predicate Missed(config: Config, flags: seq<bool>, devices: seq<Device>, position: nat) {
    && position < |flags| && !flags[position]
    && forall w | w in devices :: !StandsFor(config.supplied, w.detected, position)
  }

  lemma SilenceBefore(s: State, s': State, s'': State, position: nat)
    requires NoAlarm(s, s') && s'.trace <= s''.trace
    ensures IsAlarmed(s''.trace, |s.trace|, position) <==> IsAlarmed(s''.trace, |s'.trace|, position)
  {
    assert forall i | |s.trace| <= i < |s'.trace| :: s''.trace[i] == s'.trace[i];
  }

  lemma NothingAlarmed(s: State, s': State, position: nat)
    requires NoAlarm(s, s')
    ensures !IsAlarmed(s'.trace, |s.trace|, position)
  {
  }

  /** A detection round raises an alarm for a configured device if and only if it looks for all devices, neither the
      device's own step nor any device that is open after the scans accounts for it, and its last alarm was more than
      sixty seconds ago. */
  lemma RoundAlarmsIff(s: State, config: Config, all: bool, env: Environment, position: nat)
    ensures var (before, flags) := BeforeAlarms(s, config, all, env);
            IsAlarmed(Detect(s, config, all, env).trace, |s.trace|, position)
            <==> && all && Missed(config, flags, before.devices, position)
                 && var earlier := Unhandled(Marked(flags, config.supplied, before.devices)[..position]);
                    env.now(before.clock + earlier) - LastAlarm(s.lastAlarm, position) > 60
  {
    var (before, flags) := BeforeAlarms(s, config, all, env);
    BeforeAlarmsIsSilent(s, config, all, env);
    hide CheckForDead, DevicesStep, DevicesFlags, Scans, Marked, AlarmsStep, IsAlarmed, LastAlarm, Unhandled,
        FindSpecified, StandsFor;
    if all {
      var marked := Marked(flags, config.supplied, before.devices);
      AlarmedIff(before, marked, env, position);
      SilenceBefore(s, before, Detect(s, config, all, env), position);
      if position < |flags| {
        MarkedIff(flags, config.supplied, before.devices, position);
      }
    } else {
      NothingAlarmed(s, before, position);
    }
  }

  lemma {:induction false} AlarmsKeepDevices(s: State, flags: seq<bool>, env: Environment)
    ensures AlarmsStep(s, flags, env).devices == s.devices
  {
    if flags != [] {
      AlarmsKeepDevices(s, flags[..|flags| - 1], env);
    }
  }

  /** A round raises no alarm for a device that is configured by its identity, if the device is open. */
  lemma NoAlarmForOpenDevice(s: State, config: Config, all: bool, env: Environment, position: nat, w: Device)
    requires position < |config.supplied| && w in Detect(s, config, all, env).devices
    requires var sd := config.supplied[position];
             && sd.file == "" && sd.id != "" && sd.id == w.detected.id
             && (sd.kind == w.detected.kind || (sd.kind == Rtl433 && w.detected.kind == RtlWmbus))
    requires forall j | 0 <= j < position :: !ByIdentity(config.supplied[j], w.detected)
    ensures !IsAlarmed(Detect(s, config, all, env).trace, |s.trace|, position)
  {
    RoundAlarmsIff(s, config, all, env, position);
    var (before, flags) := BeforeAlarms(s, config, all, env);
    AlarmsKeepDevices(before, Marked(flags, config.supplied, before.devices), env);
    hide CheckForDead, DevicesStep, DevicesFlags, Scans, Marked, AlarmsStep, IsAlarmed, LastAlarm, Unhandled;
    assert StandsFor(config.supplied, w.detected, position);
  }

  /** The flag of a configured device is that of its own step. */
  lemma {:induction false} FlagAt(s: State, all: bool, supplied: seq<SpecifiedDevice>, env: Environment, i: nat)
    requires i < |supplied|
    ensures var s' := DevicesStep(s, all, supplied[..i], env);
            DevicesFlags(s, all, supplied, env)[i]
            == StepHandles(Tick(s'), all, supplied[i], env.device(s'.clock))
  {
    hide StepHandles, DevicesStep;
    var n := |supplied| - 1;
    if i < n {
      FlagAt(s, all, supplied[..n], env, i);
      assert supplied[..n][..i] == supplied[..i];
    }
  }

  /** A round raises no alarm for a device that is configured by a command or by hexadecimal data. */
  lemma NoAlarmForCommand(s: State, config: Config, all: bool, env: Environment, position: nat)
    requires position < |config.supplied|
    requires config.supplied[position].command != "" || config.supplied[position].hex != ""
    ensures !IsAlarmed(Detect(s, config, all, env).trace, |s.trace|, position)
  {
    RoundAlarmsIff(s, config, all, env, position);
    FlagAt(CheckForDead(Tick(s), config, env.working(s.clock)), all, config.supplied, env, position);
    hide CheckForDead, DevicesStep, DevicesFlags, Scans, Marked, AlarmsStep, IsAlarmed, LastAlarm, Unhandled, Missing,
        Detect;
  }

  /** For a configured device without file, command and hexadecimal data, a round for all devices raises an alarm if no
      open device stands for it and its last alarm is more than sixty seconds ago at every moment. */
  lemma AlarmForAbsentDevice(s: State, config: Config, env: Environment, position: nat)
    requires position < |config.supplied| && Anonymous(config.supplied[position])
    requires forall w | w in Detect(s, config, true, env).devices :: !StandsFor(config.supplied, w.detected, position)
    requires forall moment :: env.now(moment) - LastAlarm(s.lastAlarm, position) > 60
    ensures IsAlarmed(Detect(s, config, true, env).trace, |s.trace|, position)
  {
    RoundAlarmsIff(s, config, true, env, position);
    var (before, flags) := BeforeAlarms(s, config, true, env);
    FlagAt(CheckForDead(Tick(s), config, env.working(s.clock)), true, config.supplied, env, position);
    AlarmsKeepDevices(before, Marked(flags, config.supplied, before.devices), env);
    hide CheckForDead, DevicesStep, DevicesFlags, Scans, Marked, AlarmsStep, IsAlarmed, LastAlarm, Unhandled, Missing,
        StandsFor;
  }

  /** Of two devices configured with the same identity and type, the second is reported as missing by every round for
      all devices, even with the device open. */
  lemma SecondOfTwoIsAlarmed(s: State, config: Config, env: Environment, first: nat, second: nat)
    requires first < second < |config.supplied|
    requires var a, b := config.supplied[first], config.supplied[second];
             a.file == "" && Anonymous(b) && a.id == b.id != "" && a.kind == b.kind
    requires forall moment :: env.now(moment) - LastAlarm(s.lastAlarm, second) > 60
    ensures IsAlarmed(Detect(s, config, true, env).trace, |s.trace|, second)
  {
    forall w | w in Detect(s, config, true, env).devices
      ensures !StandsFor(config.supplied, w.detected, second)
    {
      NeverTheSecond(config.supplied, w.detected, first, second);
    }
    AlarmForAbsentDevice(s, config, env, second);
  }

  lemma NeverTheSecond(supplied: seq<SpecifiedDevice>, d: Detected, first: nat, second: nat)
    requires first < second < |supplied|
    requires supplied[first].file == "" && supplied[first].id == supplied[second].id != ""
    requires supplied[first].kind == supplied[second].kind
    ensures !StandsFor(supplied, d, second)
  {
    if ByIdentity(supplied[second], d) {
      assert ByIdentity(supplied[first], d);
    }
  }
}
