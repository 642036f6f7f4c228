/**
  The bus manager as a state machine. The environment (which ttys are listed, what a detection answers, which
  names are in use, which devices still work) is a parameter: one record of answers per moment of `clock`.
  Everything the manager does to the environment is recorded in `trace`.
 */
module BusSpec {
  import opened Hex
  import opened Wrappers

  datatype DeviceType =
    | Unknown | MBus | Auto | Amb8465 | Cul | Im871a | Im170a | RawTty | HexTty | Rc1180 | Rtl433 | RtlWmbus
        | Simulation

  /** Where a scan looks for devices: on serial lines or among software radios. */
  datatype Medium = Serial | Radio

  predicate Uses(t: DeviceType, m: Medium) {
    match m
    case Serial => t in {MBus, Amb8465, Cul, Im871a, Im170a, RawTty, HexTty, Rc1180}
    case Radio => t in {Rtl433, RtlWmbus}
  }

  datatype SpecifiedDevice = SpecifiedDevice(
    index: nat, file: string, hex: string, command: string, id: string, kind: DeviceType,
    isTty: bool, isStdin: bool, isFile: bool, isSimulation: bool)

  datatype Detected = Detected(
    kind: DeviceType, id: string, file: string, isStdin: bool, isFile: bool, isSimulation: bool)

  /** An open device, identified by the object it is, and what it was detected as. */
  datatype Device = Device(object: nat, alias: string, detected: Detected)

  datatype Config = Config(
    useAuto: bool, supplied: seq<SpecifiedDevice>, doNotProbe: set<string>,
    singleDeviceOverride: bool, simulationFound: bool, noDeviceExit: bool)

  datatype ContentStartsWith = CField | CiField | ShortFrame | LongFrame

  datatype SendBusContent = SendBusContent(bus: string, content: string, startsWith: ContentStartsWith)

  // --- The environment

  /** A detection, and the object that opening the detected device gives, if it gives one. */
  datatype Answer = Answer(detected: Detected, created: Option<Device>)

  datatype DeviceAnswers = DeviceAnswers(
    commandInUse: bool, command: Answer, hex: Answer,
    fileInUse: bool, ttys: seq<string>, isCharacterDevice: bool, fileExists: bool,
    file: Answer, isStillCharacterDevice: bool)

  datatype TtyAnswers = TtyAnswers(inUse: bool, probe: Answer)

  datatype RadioListing = RadioListing(serials: seq<string>, rtlsdrInPath: bool, rtlwmbusInPath: bool)

  datatype RadioAnswers = RadioAnswers(inUse: bool, accessible: bool, probe: Answer)

  datatype Environment = Environment(
    working: nat -> Device -> bool, device: nat -> DeviceAnswers,
    listing: nat -> seq<string>, tty: nat -> TtyAnswers,
    radios: nat -> RadioListing, radio: nat -> RadioAnswers, now: nat -> int)

  // --- The state

  datatype Event =
    | Opened(device: Device, simulates: Option<string>)
    | Closed(device: Device)
    | AllRemoved
    | ExpectDevices
    | NoDevice(exiting: bool)
    | CommandDetected(index: nat)
    | HexDetected(hex: string)
    | FileDetected(file: string, failed: bool, once: bool)
    | Listed(medium: Medium, names: seq<string>)
    | Probed(medium: Medium, name: string, failed: bool)
    | Alarmed(position: nat, now: int)
    | Sent(index: nat, device: Device, startsWith: ContentStartsWith, bytes: seq<byte>)

  /** `lastAlarm` goes by the position of the configured device. `queued` is every content ever queued, of which the
      first `handled` were sent or given up. */
  datatype State = State(
    devices: seq<Device>, notSerial: set<string>, notRadio: set<string>, doNotOpen: set<string>,
    simulationFiles: set<string>, rtlsdrFound: bool, rtlwmbusFound: bool, lastAlarm: map<nat, int>,
    queue: seq<SendBusContent>, printedWarning: bool, clock: nat, trace: seq<Event>,
    queued: seq<SendBusContent>, handled: nat)

  const INITIAL := State([], {}, {}, {}, {}, false, false, map[], [], true, 0, [], [], 0)

  // --- Dead devices

  /** The devices for which `working` has the given value, in their order. */
  function Having(devices: seq<Device>, working: Device -> bool, value: bool): seq<Device> {
    if devices == [] then []
    else (if working(devices[0]) == value then [devices[0]] else []) + Having(devices[1..], working, value)
  }

  /** The list after its first occurrence of `w` is erased. */
  function Without(devices: seq<Device>, w: Device): seq<Device> {
    if devices == [] then []
    else if devices[0] == w then devices[1..]
    else [devices[0]] + Without(devices[1..], w)
  }

  lemma HavingCons(d: Device, rest: seq<Device>, working: Device -> bool, value: bool)
    ensures Having([d] + rest, working, value)
         == (if working(d) == value then [d] else []) + Having(rest, working, value)
  {
    assert ([d] + rest)[1..] == rest;
  }

  lemma {:induction false} FirstIsDead(devices: seq<Device>, working: Device -> bool)
    requires Having(devices, working, false) != []
    ensures !working(Having(devices, working, false)[0])
  {
    if working(devices[0]) {
      FirstIsDead(devices[1..], working);
    }
  }

  /** Erasing the first dead device wherever it first occurs takes away that device and nothing else. */
  lemma {:induction false} EraseFirstDead(devices: seq<Device>, working: Device -> bool)
    requires Having(devices, working, false) != []
    ensures var w := Having(devices, working, false)[0];
            && Having(Without(devices, w), working, false) == Having(devices, working, false)[1..]
            && Having(Without(devices, w), working, true) == Having(devices, working, true)
  {
    var d, rest := devices[0], devices[1..];
    if working(d) {
      var w := Having(rest, working, false)[0];
      FirstIsDead(rest, working);
      EraseFirstDead(rest, working);
      assert Without(devices, w) == [d] + Without(rest, w);
      HavingCons(d, Without(rest, w), working, false);
      HavingCons(d, Without(rest, w), working, true);
    } else {
      assert Without(devices, d) == rest;
    }
  }

  lemma {:induction false} AllWorking(devices: seq<Device>, working: Device -> bool)
    requires Having(devices, working, false) == []
    ensures Having(devices, working, true) == devices
  {
    if devices != [] {
      AllWorking(devices[1..], working);
    }
  }

  lemma {:induction false} HavingNext(devices: seq<Device>, working: Device -> bool, value: bool, n: nat)
    requires n < |devices|
    ensures Having(devices[..n + 1], working, value)
         == Having(devices[..n], working, value) + (if working(devices[n]) == value then [devices[n]] else [])
  {
    if n > 0 {
      HavingNext(devices[1..], working, value, n - 1);
      assert devices[1..][..n] == devices[..n + 1][1..];
      assert devices[1..][..n - 1] == devices[..n][1..];
    } else {
      assert devices[..1][1..] == [];
    }
  }

  function Closings(devices: seq<Device>): (r: seq<Event>)
    ensures |r| == |devices|
    ensures forall i | 0 <= i < |r| :: r[i] == Closed(devices[i])
  {
    seq(|devices|, i requires 0 <= i < |devices| => Closed(devices[i]))
  }

  function Notices(s: State, config: Config): seq<Event> {
    if s.devices != [] then []
    else if config.singleDeviceOverride then (if config.simulationFound then [] else [ExpectDevices])
    else if s.printedWarning then []
    else [NoDevice(config.noDeviceExit)]
  }

  function Notified(s: State, config: Config): State {
    s.(trace := s.trace + Notices(s, config),
       printedWarning := s.devices == [] && (s.printedWarning || !config.singleDeviceOverride))
  }

  function CheckForDead(s: State, config: Config, working: Device -> bool): State {
    Notified(s.(devices := Having(s.devices, working, true),
                trace := s.trace + Closings(Having(s.devices, working, false))), config)
  }

  // --- Opening

  function Open(s: State, a: Answer): State {
    if a.detected.kind == Unknown || a.created == None then s
    else
      var w := a.created.value.(detected := a.detected);
      if a.detected.kind == Simulation then
        s.(devices := s.devices + [w], simulationFiles := s.simulationFiles + {a.detected.file},
           trace := s.trace + [Opened(w, Some(a.detected.file))])
      else
        s.(devices := s.devices + [w], trace := s.trace + [Opened(w, None)])
  }

  /** A supplied device without a file that fits a detected one: by its identity, or by its type alone. */
  predicate Fits(sd: SpecifiedDevice, d: Detected, byId: bool) {
    && sd.file == ""
    && (if byId then sd.id != "" && sd.id == d.id else sd.id == "")
    && (sd.kind == d.kind || (sd.kind == Rtl433 && d.kind == RtlWmbus))
  }

  ghost predicate FirstFit(supplied: seq<SpecifiedDevice>, d: Detected, byId: bool, i: nat) {
    && i < |supplied| && Fits(supplied[i], d, byId)
    && forall j | 0 <= j < i :: !Fits(supplied[j], d, byId)
  }

  function FindFit(supplied: seq<SpecifiedDevice>, d: Detected, byId: bool): (r: Option<nat>)
    ensures r.Some? ==> FirstFit(supplied, d, byId, r.value)
    ensures r.None? ==> forall j | 0 <= j < |supplied| :: !Fits(supplied[j], d, byId)
  {
    FindFitFrom(supplied, d, byId, 0)
  }

  function FindFitFrom(supplied: seq<SpecifiedDevice>, d: Detected, byId: bool, i: nat): (r: Option<nat>)
    requires i <= |supplied|
    requires forall j | 0 <= j < i :: !Fits(supplied[j], d, byId)
    ensures r.Some? ==> FirstFit(supplied, d, byId, r.value)
    ensures r.None? ==> forall j | 0 <= j < |supplied| :: !Fits(supplied[j], d, byId)
    decreases |supplied| - i
  {
    if i == |supplied| then None
    else if Fits(supplied[i], d, byId) then Some(i)
    else FindFitFrom(supplied, d, byId, i + 1)
  }

  /** The supplied device that a detected one stands for; a match on identity wins over every match on type. */
  function FindSpecified(supplied: seq<SpecifiedDevice>, d: Detected): (r: Option<nat>)
    ensures r.Some? ==> r.value < |supplied|
  {
    var exact := FindFit(supplied, d, true);
    if exact.Some? then exact else FindFit(supplied, d, false)
  }

  /** The type of a configured device covers that of a detected one. */
  predicate OfKind(sd: SpecifiedDevice, d: Detected) {
    sd.kind == d.kind || (sd.kind == Rtl433 && d.kind == RtlWmbus)
  }

  /** It is configured by the identity of the detected device, and without a file. */
  predicate ByIdentity(sd: SpecifiedDevice, d: Detected) {
    sd.file == "" && sd.id != "" && sd.id == d.id && OfKind(sd, d)
  }

  /** It is configured by type alone. */
  predicate ByKind(sd: SpecifiedDevice, d: Detected) {
    sd.file == "" && sd.id == "" && OfKind(sd, d)
  }

  /** The detected device is the configured device `i`: the first that has its identity, or if none has, the first
      that is configured by its type alone. */
  ghost predicate StandsFor(supplied: seq<SpecifiedDevice>, d: Detected, i: nat) {
    && i < |supplied|
    && if ByIdentity(supplied[i], d) then forall j | 0 <= j < i :: !ByIdentity(supplied[j], d)
       else
         && ByKind(supplied[i], d)
         && (forall j | 0 <= j < i :: !ByKind(supplied[j], d))
         && (forall j | 0 <= j < |supplied| :: !ByIdentity(supplied[j], d))
  }

  lemma FitsIff(sd: SpecifiedDevice, d: Detected)
    ensures Fits(sd, d, true) <==> ByIdentity(sd, d)
    ensures Fits(sd, d, false) <==> ByKind(sd, d)
  {
  }

  lemma FindSpecifiedIff(supplied: seq<SpecifiedDevice>, d: Detected)
    ensures forall i: nat :: FindSpecified(supplied, d) == Some(i) <==> StandsFor(supplied, d, i)
    ensures FindSpecified(supplied, d) == None
       <==> forall i | 0 <= i < |supplied| :: !ByIdentity(supplied[i], d) && !ByKind(supplied[i], d)
  {
    hide Fits, ByIdentity, ByKind;
    forall i | 0 <= i < |supplied|
      ensures Fits(supplied[i], d, true) <==> ByIdentity(supplied[i], d)
      ensures Fits(supplied[i], d, false) <==> ByKind(supplied[i], d)
    {
      FitsIff(supplied[i], d);
    }
  }

  function Update(d: Detected, sd: SpecifiedDevice): Detected {
    Detected(if sd.kind == Rtl433 && d.kind == RtlWmbus then Rtl433 else d.kind,
             d.id, sd.file, sd.isStdin, sd.isFile, sd.isSimulation)
  }

  // --- Detection of the supplied devices

  function Among(names: set<string>, listed: seq<string>): set<string> {
    set name | name in names && name in listed
  }

  /** A listing, after which names that were not listed are no longer ignored. */
  function Listing(s: State, ttys: seq<string>): State {
    s.(notSerial := Among(s.notSerial, ttys), trace := s.trace + [Listed(Serial, ttys)])
  }

  predicate Once(d: Detected) {
    d.isStdin || d.isFile || d.isSimulation
  }

  function DetectFile(s: State, file: string, a: DeviceAnswers): State {
    var d := a.file.detected;
    var failed := d.kind == Unknown && a.isStillCharacterDevice;
    Open(s.(trace := s.trace + [FileDetected(file, failed, Once(d))],
            notSerial := s.notSerial + (if failed then {file} else {}),
            doNotOpen := s.doNotOpen + (if Once(d) then {file} else {})),
         a.file)
  }

  function FileStep(s: State, file: string, a: DeviceAnswers): State {
    if a.fileInUse || file in s.simulationFiles || file in s.doNotOpen then s
    else
      var s' := if file in s.notSerial then Listing(s, a.ttys) else s;
      if file in s'.notSerial || (!a.isCharacterDevice && !a.fileExists && file != "stdin") then s'
      else DetectFile(s', file, a)
  }

  predicate Skipped(all: bool, sd: SpecifiedDevice) {
    !all && (sd.isTty || (!sd.isStdin && !sd.isFile && !sd.isSimulation))
  }

  predicate Anonymous(sd: SpecifiedDevice) {
    sd.file == "" && sd.command == "" && sd.hex == ""
  }

  function CommandStep(s: State, sd: SpecifiedDevice, a: DeviceAnswers): State {
    if sd.command == "" then s
    else Open(s.(trace := s.trace + [CommandDetected(sd.index)]), a.command)
  }

  function HexStep(s: State, sd: SpecifiedDevice, a: DeviceAnswers): State {
    if sd.hex == "" then s
    else Open(s.(trace := s.trace + [HexDetected(sd.hex)]), a.hex)
  }

  function DeviceStep(s: State, all: bool, sd: SpecifiedDevice, a: DeviceAnswers): State {
    if Skipped(all, sd) || Anonymous(sd) || (sd.command != "" && a.commandInUse) then s
    else
      var s' := HexStep(CommandStep(s, sd, a), sd, a);
      if sd.file == "" then s' else FileStep(s', sd.file, a)
  }

  /** The file is to be detected, but there is no such file. */
  predicate Missing(s: State, file: string, a: DeviceAnswers) {
    && !a.fileInUse && file !in s.simulationFiles && file !in s.doNotOpen
    && file !in (if file in s.notSerial then Among(s.notSerial, a.ttys) else s.notSerial)
    && !a.isCharacterDevice && !a.fileExists && file != "stdin"
  }

  /** Whether a configured device counts as handled after its step. */
  predicate StepHandles(s: State, all: bool, sd: SpecifiedDevice, a: DeviceAnswers) {
    && !Skipped(all, sd) && !Anonymous(sd)
    && (sd.command != "" || sd.hex != "" || !Missing(s, sd.file, a))
  }

  function Tick(s: State): State {
    s.(clock := s.clock + 1)
  }

  function DevicesStep(s: State, all: bool, supplied: seq<SpecifiedDevice>, env: Environment): State {
    if supplied == [] then s
    else
      var s' := DevicesStep(s, all, supplied[..|supplied| - 1], env);
      DeviceStep(Tick(s'), all, supplied[|supplied| - 1], env.device(s'.clock))
  }

  function DevicesFlags(s: State, all: bool, supplied: seq<SpecifiedDevice>, env: Environment): (flags: seq<bool>)
    ensures |flags| == |supplied|
  {
    if supplied == [] then []
    else
      var front := supplied[..|supplied| - 1];
      var s' := DevicesStep(s, all, front, env);
      DevicesFlags(s, all, front, env)
      + [StepHandles(Tick(s'), all, supplied[|supplied| - 1], env.device(s'.clock))]
  }

  lemma DevicesNone(s: State, all: bool, supplied: seq<SpecifiedDevice>, env: Environment)
    requires supplied == []
    ensures DevicesStep(s, all, supplied, env) == s && DevicesFlags(s, all, supplied, env) == []
  {
  }

  lemma DevicesNext(s: State, all: bool, supplied: seq<SpecifiedDevice>, env: Environment, n: nat)
    requires n < |supplied|
    ensures DevicesStep(s, all, supplied[..n + 1], env)
         == (var s' := DevicesStep(s, all, supplied[..n], env);
             DeviceStep(Tick(s'), all, supplied[n], env.device(s'.clock)))
    ensures DevicesFlags(s, all, supplied[..n + 1], env)
         == DevicesFlags(s, all, supplied[..n], env)
            + (var s' := DevicesStep(s, all, supplied[..n], env);
               [StepHandles(Tick(s'), all, supplied[n], env.device(s'.clock))])
  {
    hide DeviceStep, StepHandles;
    assert supplied[..n + 1][..n] == supplied[..n];
  }

  // --- The scans

  /** A device that was found is opened if it is configured, or if any device will do. */
  function OpenFound(s: State, config: Config, a: Answer): State {
    match FindSpecified(config.supplied, a.detected)
    case Some(i) => Open(s, a.(detected := Update(a.detected, config.supplied[i])))
    case None => if config.useAuto then Open(s, a) else s
  }

  function TtyStep(s: State, config: Config, tty: string, a: TtyAnswers): State {
    if tty in s.notSerial || "all" in config.doNotProbe || tty in config.doNotProbe || a.inUse then s
    else
      var failed := a.probe.detected.kind == Unknown;
      var s' := s.(trace := s.trace + [Probed(Serial, tty, failed)]);
      if failed then s'.(notSerial := s.notSerial + {tty}) else OpenFound(s', config, a.probe)
  }

  function TtysStep(s: State, config: Config, ttys: seq<string>, env: Environment): State {
    if ttys == [] then s
    else
      var s' := TtysStep(s, config, ttys[..|ttys| - 1], env);
      TtyStep(Tick(s'), config, ttys[|ttys| - 1], env.tty(s'.clock))
  }

  lemma TtysNone(s: State, config: Config, ttys: seq<string>, env: Environment)
    requires ttys == []
    ensures TtysStep(s, config, ttys, env) == s
  {
  }

  lemma TtysNext(s: State, config: Config, ttys: seq<string>, env: Environment, n: nat)
    requires n < |ttys|
    ensures TtysStep(s, config, ttys[..n + 1], env)
         == (var s' := TtysStep(s, config, ttys[..n], env);
             TtyStep(Tick(s'), config, ttys[n], env.tty(s'.clock)))
  {
    assert ttys[..n + 1][..n] == ttys[..n];
  }

  function AutoScan(s: State, config: Config, env: Environment): State {
    var ttys := env.listing(s.clock);
    TtysStep(Listing(Tick(s), ttys), config, ttys, env)
  }

  function RadioStep(s: State, config: Config, serial: string, a: RadioAnswers): State {
    if serial in s.notRadio || a.inUse then s
    else
      var s' := s.(trace := s.trace + [Probed(Radio, serial, !a.accessible)]);
      if !a.accessible then s'.(notRadio := s.notRadio + {serial})
      else OpenFound(s', config, a.probe.(detected := a.probe.detected.(id := serial)))
  }

  function RadiosStep(s: State, config: Config, serials: seq<string>, env: Environment): State {
    if serials == [] then s
    else
      var s' := RadiosStep(s, config, serials[..|serials| - 1], env);
      RadioStep(Tick(s'), config, serials[|serials| - 1], env.radio(s'.clock))
  }

  lemma RadiosNone(s: State, config: Config, serials: seq<string>, env: Environment)
    requires serials == []
    ensures RadiosStep(s, config, serials, env) == s
  {
  }

  lemma RadiosNext(s: State, config: Config, serials: seq<string>, env: Environment, n: nat)
    requires n < |serials|
    ensures RadiosStep(s, config, serials[..n + 1], env)
         == (var s' := RadiosStep(s, config, serials[..n], env);
             RadioStep(Tick(s'), config, serials[n], env.radio(s'.clock)))
  {
    assert serials[..n + 1][..n] == serials[..n];
  }

  /** The programs that a software radio needs are looked for again as long as one is missing. */
  function FindPrograms(s: State, a: RadioListing): State {
    if a.serials != [] && (!s.rtlsdrFound || !s.rtlwmbusFound)
    then s.(rtlsdrFound := a.rtlsdrInPath, rtlwmbusFound := a.rtlwmbusInPath) else s
  }

  function RadioListed(s: State, serials: seq<string>): State {
    s.(notRadio := Among(s.notRadio, serials), trace := s.trace + [Listed(Radio, serials)])
  }

  function RadioScan(s: State, config: Config, env: Environment): State {
    var a := env.radios(s.clock);
    var s' := FindPrograms(Tick(s), a);
    if !s'.rtlsdrFound || !s'.rtlwmbusFound then s'
    else RadiosStep(RadioListed(s', a.serials), config, a.serials, env)
  }

  predicate AsksForScan(all: bool, sd: SpecifiedDevice, m: Medium) {
    !Skipped(all, sd) && Anonymous(sd) && Uses(sd.kind, m)
  }

  ghost predicate SomeAskForScan(all: bool, supplied: seq<SpecifiedDevice>, m: Medium) {
    exists sd | sd in supplied :: AsksForScan(all, sd, m)
  }

  lemma NobodyAsks(all: bool, supplied: seq<SpecifiedDevice>, m: Medium)
    requires supplied == []
    ensures !SomeAskForScan(all, supplied, m)
  {
  }

  lemma AskNext(all: bool, supplied: seq<SpecifiedDevice>, n: nat, m: Medium)
    requires n < |supplied|
    ensures SomeAskForScan(all, supplied[..n + 1], m)
       <==> SomeAskForScan(all, supplied[..n], m) || AsksForScan(all, supplied[n], m)
  {
    assert supplied[..n + 1] == supplied[..n] + [supplied[n]];
  }

  ghost predicate MustScan(config: Config, all: bool, m: Medium) {
    (config.useAuto && all) || SomeAskForScan(all, config.supplied, m)
  }

  // --- Alarms for configured devices that are not there

  /** A configured device is handled if its step says so, or if an open device was detected as it. */
  function Marked(flags: seq<bool>, supplied: seq<SpecifiedDevice>, devices: seq<Device>): (r: seq<bool>)
    requires |flags| == |supplied|
    ensures |r| == |flags|
  {
    if devices == [] then flags
    else
      var r := Marked(flags, supplied, devices[..|devices| - 1]);
      var i := FindSpecified(supplied, devices[|devices| - 1].detected);
      if i.Some? then r[i.value := true] else r
  }

  lemma MarkedNone(flags: seq<bool>, supplied: seq<SpecifiedDevice>, devices: seq<Device>)
    requires |flags| == |supplied| && devices == []
    ensures Marked(flags, supplied, devices) == flags
  {
  }

  lemma MarkedNext(flags: seq<bool>, supplied: seq<SpecifiedDevice>, devices: seq<Device>, n: nat)
    requires |flags| == |supplied| && n < |devices|
    ensures Marked(flags, supplied, devices[..n + 1])
         == (var r, i := Marked(flags, supplied, devices[..n]), FindSpecified(supplied, devices[n].detected);
             if i.Some? then r[i.value := true] else r)
  {
    hide FindSpecified;
    assert devices[..n + 1][..n] == devices[..n];
  }

  function LastAlarm(alarms: map<nat, int>, position: nat): int {
    if position in alarms then alarms[position] else 0
  }

  /** An alarm for the same device is raised at most once in sixty seconds. */
  function AlarmStep(s: State, position: nat, now: int): State {
    if now - LastAlarm(s.lastAlarm, position) > 60
    then s.(lastAlarm := s.lastAlarm[position := now], trace := s.trace + [Alarmed(position, now)]) else s
  }

  function AlarmsStep(s: State, flags: seq<bool>, env: Environment): State {
    if flags == [] then s
    else
      var n := |flags| - 1;
      var s' := AlarmsStep(s, flags[..n], env);
      if flags[n] then s' else AlarmStep(Tick(s'), n, env.now(s'.clock))
  }

  lemma AlarmsNone(s: State, flags: seq<bool>, env: Environment)
    requires flags == []
    ensures AlarmsStep(s, flags, env) == s
  {
  }

  lemma AlarmsNext(s: State, flags: seq<bool>, env: Environment, n: nat)
    requires n < |flags|
    ensures AlarmsStep(s, flags[..n + 1], env)
         == (var s' := AlarmsStep(s, flags[..n], env);
             if flags[n] then s' else AlarmStep(Tick(s'), n, env.now(s'.clock)))
  {
    assert flags[..n + 1][..n] == flags[..n];
  }

  // --- A detection round

  ghost function Scans(s: State, config: Config, all: bool, env: Environment): State {
    var s' := if MustScan(config, all, Serial) then AutoScan(s, config, env) else s;
    if MustScan(config, all, Radio) then RadioScan(s', config, env) else s'
  }

  ghost function Detect(s: State, config: Config, all: bool, env: Environment): State {
    var s1 := CheckForDead(Tick(s), config, env.working(s.clock));
    var s2 := Scans(DevicesStep(s1, all, config.supplied, env), config, all, env);
    if all then AlarmsStep(s2, Marked(DevicesFlags(s1, all, config.supplied, env), config.supplied, s2.devices), env)
    else s2
  }

  // --- The send queue

  ghost predicate FirstWithAlias(devices: seq<Device>, alias: string, i: nat) {
    i < |devices| && devices[i].alias == alias && forall j | 0 <= j < i :: devices[j].alias != alias
  }

  function FindBus(devices: seq<Device>, alias: string): (r: Option<Device>)
    ensures r.None? ==> forall j | 0 <= j < |devices| :: devices[j].alias != alias
    ensures r.Some? ==> exists i: nat :: FirstWithAlias(devices, alias, i) && devices[i] == r.value
  {
    if devices == [] then None
    else if devices[0].alias == alias then
      assert FirstWithAlias(devices, alias, 0);
      Some(devices[0])
    else
      var r := FindBus(devices[1..], alias);
      assert r.Some? ==> exists i: nat :: FirstWithAlias(devices, alias, i) && devices[i] == r.value by {
        if r.Some? {
          var i: nat :| FirstWithAlias(devices[1..], alias, i) && devices[1..][i] == r.value;
          assert FirstWithAlias(devices, alias, i + 1);
        }
      }
      r
  }

  /** A content goes out if its bus exists, it has at most 500 characters and they are hexadecimal. */
  predicate Deliverable(devices: seq<Device>, c: SendBusContent) {
    FindBus(devices, c.bus).Some? && |c.content| <= 500 && Hex2Bin(c.content).0
  }

  function Delivery(devices: seq<Device>, c: SendBusContent, index: nat): seq<Event> {
    if Deliverable(devices, c)
    then [Sent(index, FindBus(devices, c.bus).value, c.startsWith, Hex2Bin(c.content).1)]
    else []
  }

  /** What sending the queue hands over; `from` is the number of contents that were queued before these. */
  function Deliveries(devices: seq<Device>, queue: seq<SendBusContent>, from: nat): seq<Event> {
    if queue == [] then []
    else
      var n := |queue| - 1;
      Deliveries(devices, queue[..n], from) + Delivery(devices, queue[n], from + n)
  }

  lemma DeliveriesNone(before: seq<Event>, devices: seq<Device>, queue: seq<SendBusContent>, from: nat)
    requires queue == []
    ensures before + Deliveries(devices, queue, from) == before
  {
    assert before + [] == before;
  }

  lemma DeliveriesNext(before: seq<Event>, devices: seq<Device>, queue: seq<SendBusContent>, from: nat, n: nat)
    requires n < |queue|
    ensures before + Deliveries(devices, queue[..n + 1], from)
         == before + Deliveries(devices, queue[..n], from) + Delivery(devices, queue[n], from + n)
  {
    hide Delivery;
    assert queue[..n + 1][..n] == queue[..n];
  }

  function Enqueue(s: State, c: SendBusContent): State {
    s.(queue := s.queue + [c], queued := s.queued + [c])
  }

  function SendQueue(s: State): State {
    s.(queue := [], handled := s.handled + |s.queue|, trace := s.trace + Deliveries(s.devices, s.queue, s.handled))
  }

  // --- Runs

  datatype Operation =
    | DetectDevices(all: bool)
    | QueueContent(content: SendBusContent)
    | SendQueued
    | RemoveAll

  ghost function Perform(s: State, op: Operation, config: Config, env: Environment): State {
    match op
    case DetectDevices(all) => Detect(s, config, all, env)
    case QueueContent(c) => Enqueue(s, c)
    case SendQueued => SendQueue(s)
    case RemoveAll => s.(devices := [], trace := s.trace + [AllRemoved])
  }

  ghost function Run(ops: seq<Operation>, config: Config, env: Environment): State {
    if ops == [] then INITIAL
    else Perform(Run(ops[..|ops| - 1], config, env), ops[|ops| - 1], config, env)
  }

  lemma RunNone(ops: seq<Operation>, config: Config, env: Environment)
    requires ops == []
    ensures Run(ops, config, env) == INITIAL
  {
  }

  lemma RunNext(ops: seq<Operation>, config: Config, env: Environment, n: nat)
    requires n < |ops|
    ensures Run(ops[..n + 1], config, env) == Perform(Run(ops[..n], config, env), ops[n], config, env)
  {
    hide Perform;
    assert ops[..n + 1][..n] == ops[..n];
  }
}
