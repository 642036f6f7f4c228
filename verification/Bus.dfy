/** The bus manager of src/bus.cc, proved to follow the state machine step by step. */
module Bus {
  import opened Wrappers
  import opened Hex
  import opened BusSpec
  import BusSafety

  class BusManager {
    var busDevices: seq<Device>
    var notSerialWmbusDevices: set<string>
    var notSwradioWmbusDevices: set<string>
    var doNotOpenFileAgain: set<string>
    var simulationFiles: set<string>
    var rtlsdrFound: bool
    var rtlwmbusFound: bool
    var lastAlarm: map<nat, int>
    var busSendQueue: seq<SendBusContent>
    var printedWarning: bool
    var clock: nat
    ghost var trace: seq<Event>
    ghost var queued: seq<SendBusContent>
    ghost var handled: nat

    ghost function Current(): State
      reads this
    {
      State(busDevices, notSerialWmbusDevices, notSwradioWmbusDevices, doNotOpenFileAgain, simulationFiles,
            rtlsdrFound, rtlwmbusFound, lastAlarm, busSendQueue, printedWarning, clock, trace, queued, handled)
    }

    constructor ()
      ensures Current() == INITIAL
    {
      busDevices, notSerialWmbusDevices, notSwradioWmbusDevices, doNotOpenFileAgain, simulationFiles :=
          [], {}, {}, {}, {};
      rtlsdrFound, rtlwmbusFound, lastAlarm := false, false, map[];
      busSendQueue, printedWarning, clock := [], true, 0;
      trace, queued, handled := [], [], 0;
    }

    method RemoveAllBusDevices()
      modifies this
      ensures Current() == old(Current()).(devices := [], trace := old(trace) + [AllRemoved])
    {
      busDevices := [];
      trace := trace + [AllRemoved];
    }

    method OpenBusDevice(a: Answer)
      modifies this
      ensures Current() == Open(old(Current()), a)
    {
      if a.detected.kind == Unknown {
        return;
      }
      if a.created == None {
        return;
      }
      var wmbus := a.created.value.(detected := a.detected);
      busDevices := busDevices + [wmbus];
      trace := trace + [Opened(wmbus, if a.detected.kind == Simulation then Some(a.detected.file) else None)];
      if a.detected.kind == Simulation {
        simulationFiles := simulationFiles + {a.detected.file};
      }
    }

    /** Erases the first occurrence of a device. */
    method Erase(w: Device)
      modifies this`busDevices
      ensures busDevices == Without(old(busDevices), w)
    {
      var i := 0;
      while i < |busDevices|
        invariant 0 <= i <= |busDevices|
        invariant busDevices == old(busDevices)
        invariant Without(busDevices, w) == busDevices[..i] + Without(busDevices[i..], w)
      {
        assert busDevices[i..][1..] == busDevices[i + 1..];
        if w == busDevices[i] {
          busDevices := busDevices[..i] + busDevices[i + 1..];
          return;
        }
        i := i + 1;
      }
    }

    /** The devices that no longer work are closed in order and erased one by one; what is left is exactly the
        working devices, in their order. */
    method CheckForDeadWmbusDevices(config: Config, working: Device -> bool)
      modifies this
      ensures Current() == CheckForDead(old(Current()), config, working)
    {
      var notWorking := CloseNotWorking(working);
      ghost var alive := Having(busDevices, working, true);
      var k := 0;
      while k < |notWorking|
        invariant 0 <= k <= |notWorking|
        invariant Having(busDevices, working, false) == notWorking[k..]
        invariant Having(busDevices, working, true) == alive
        invariant Current() == old(Current()).(devices := busDevices, trace := old(trace) + Closings(notWorking))
      {
        EraseFirstDead(busDevices, working);
        Erase(notWorking[k]);
        k := k + 1;
      }
      AllWorking(busDevices, working);
      NoticeMissingDevices(config);
    }

    method CloseNotWorking(working: Device -> bool) returns (notWorking: seq<Device>)
      modifies this`trace
      ensures notWorking == Having(busDevices, working, false)
      ensures trace == old(trace) + Closings(notWorking)
    {
      notWorking := [];
      var i := 0;
      assert busDevices[..0] == [];
      while i < |busDevices|
        invariant 0 <= i <= |busDevices|
        invariant notWorking == Having(busDevices[..i], working, false)
        invariant trace == old(trace) + Closings(notWorking)
      {
        HavingNext(busDevices, working, false, i);
        if !working(busDevices[i]) {
          notWorking := notWorking + [busDevices[i]];
          trace := trace + [Closed(busDevices[i])];
        }
        i := i + 1;
      }
      assert busDevices[..i] == busDevices;
    }

    method NoticeMissingDevices(config: Config)
      modifies this`trace, this`printedWarning
      ensures Current() == Notified(old(Current()), config)
    {
      if |busDevices| == 0 {
        if config.singleDeviceOverride {
          if !config.simulationFound {
            trace := trace + [ExpectDevices];
          }
        } else {
          if !printedWarning {
            trace := trace + [NoDevice(config.noDeviceExit)];
            printedWarning := true;
          }
        }
      } else {
        printedWarning := false;
      }
    }

    method ListSerialTtys(ttys: seq<string>)
      modifies this
      ensures Current() == Listing(old(Current()), ttys)
    {
      trace := trace + [Listed(Serial, ttys)];
      notSerialWmbusDevices := RemoveLost(notSerialWmbusDevices, ttys);
    }

    method DetectWithFile(file: string, a: DeviceAnswers) returns (found: bool)
      modifies this
      ensures Current() == FileStep(old(Current()), file, a)
      ensures found == !Missing(old(Current()), file, a)
    {
      hide DetectFile;
      found := true;
      if a.fileInUse || file in simulationFiles || file in doNotOpenFileAgain {
        return;
      }
      if file in notSerialWmbusDevices {
        ListSerialTtys(a.ttys);
        if file in notSerialWmbusDevices {
          return;
        }
      }
      if !a.isCharacterDevice && !a.fileExists && file != "stdin" {
        return false;
      }
      DetectExistingFile(file, a);
    }

    method DetectExistingFile(file: string, a: DeviceAnswers)
      modifies this
      ensures Current() == DetectFile(old(Current()), file, a)
    {
      hide Open;
      var d := a.file.detected;
      trace := trace + [FileDetected(file, d.kind == Unknown && a.isStillCharacterDevice, Once(d))];
      if d.kind == Unknown {
        if a.isStillCharacterDevice {
          notSerialWmbusDevices := notSerialWmbusDevices + {file};
        }
      }
      if d.isStdin || d.isFile || d.isSimulation {
        doNotOpenFileAgain := doNotOpenFileAgain + {file};
      }
      assert old(notSerialWmbusDevices) + {} == old(notSerialWmbusDevices);
      assert old(doNotOpenFileAgain) + {} == old(doNotOpenFileAgain);
      OpenBusDevice(a.file);
    }

    method DetectSuppliedDevice(all: bool, sd: SpecifiedDevice, a: DeviceAnswers) returns (isHandled: bool)
      modifies this
      ensures Current() == DeviceStep(old(Current()), all, sd, a)
      ensures isHandled == StepHandles(old(Current()), all, sd, a)
    {
      hide FileStep, Open;
      isHandled := false;
      if !all {
        if sd.isTty || (!sd.isStdin && !sd.isFile && !sd.isSimulation) {
          return;
        }
      }
      if sd.file == "" && sd.command == "" && sd.hex == "" {
        return;
      }
      if sd.command != "" {
        if a.commandInUse {
          return true;
        }
        trace := trace + [CommandDetected(sd.index)];
        isHandled := true;
        OpenBusDevice(a.command);
      }
      if sd.hex != "" {
        trace := trace + [HexDetected(sd.hex)];
        OpenBusDevice(a.hex);
        isHandled := true;
      }
      if sd.file != "" {
        var found := DetectWithFile(sd.file, a);
        if !found {
          return;
        }
      }
      isHandled := true;
    }

    method DetectAndConfigureWmbusDevices(config: Config, all: bool, env: Environment)
      modifies this
      ensures Current() == Detect(old(Current()), config, all, env)
    {
      hide DevicesStep, DevicesFlags, CheckForDead, Scans, SomeAskForScan, Marked, AlarmsStep;
      var now := clock;
      clock := clock + 1;
      CheckForDeadWmbusDevices(config, env.working(now));
      ghost var s := Current();
      var flags, ttys, radios := DetectSuppliedDevices(config, all, env);
      ScanIfAsked(config, all, env, ttys, radios);
      flags := MarkAsHandled(config.supplied, flags);
      if all {
        RaiseAlarms(flags, env);
      }
    }

    /** The loop over the configured devices, with their handled flags and the scans they ask for. */
    method DetectSuppliedDevices(config: Config, all: bool, env: Environment)
      returns (flags: seq<bool>, mustAutoFindTtys: bool, mustAutoFindRtlsdrs: bool)
      modifies this
      ensures Current() == DevicesStep(old(Current()), all, config.supplied, env)
      ensures flags == DevicesFlags(old(Current()), all, config.supplied, env)
      ensures mustAutoFindTtys <==> MustScan(config, all, Serial)
      ensures mustAutoFindRtlsdrs <==> MustScan(config, all, Radio)
    {
      hide DeviceStep, DevicesStep, DevicesFlags, StepHandles, SomeAskForScan, AsksForScan;
      ghost var s := Current();
      mustAutoFindTtys := config.useAuto && all;
      mustAutoFindRtlsdrs := config.useAuto && all;
      flags := [];
      var i := 0;
      DevicesNone(s, all, config.supplied[..0], env);
      NobodyAsks(all, config.supplied[..0], Serial);
      NobodyAsks(all, config.supplied[..0], Radio);
      while i < |config.supplied|
        invariant 0 <= i <= |config.supplied|
        invariant Current() == DevicesStep(s, all, config.supplied[..i], env)
        invariant flags == DevicesFlags(s, all, config.supplied[..i], env)
        invariant mustAutoFindTtys <==> (config.useAuto && all) || SomeAskForScan(all, config.supplied[..i], Serial)
        invariant mustAutoFindRtlsdrs <==> (config.useAuto && all) || SomeAskForScan(all, config.supplied[..i], Radio)
      {
        DevicesNext(s, all, config.supplied, env, i);
        AskNext(all, config.supplied, i, Serial);
        AskNext(all, config.supplied, i, Radio);
        var now := clock;
        clock := clock + 1;
        mustAutoFindTtys := mustAutoFindTtys || AsksForScan(all, config.supplied[i], Serial);
        mustAutoFindRtlsdrs := mustAutoFindRtlsdrs || AsksForScan(all, config.supplied[i], Radio);
        var isHandled := DetectSuppliedDevice(all, config.supplied[i], env.device(now));
        flags := flags + [isHandled];
        i := i + 1;
      }
      assert config.supplied[..i] == config.supplied;
    }

    method ScanIfAsked(config: Config, all: bool, env: Environment, ttys: bool, radios: bool)
      requires ttys <==> MustScan(config, all, Serial)
      requires radios <==> MustScan(config, all, Radio)
      modifies this
      ensures Current() == Scans(old(Current()), config, all, env)
    {
      hide MustScan, AutoScan, RadioScan;
      if ttys {
        PerformAutoScanOfSerialDevices(config, env);
      }
      if radios {
        PerformAutoScanOfSwradioDevices(config, env);
      }
    }

    method OpenIfWanted(config: Config, a: Answer)
      modifies this
      ensures Current() == OpenFound(old(Current()), config, a)
    {
      hide Open, FindSpecified;
      var found := FindSpecifiedDevice(config.supplied, a.detected);
      if found.Some? {
        OpenBusDevice(a.(detected := Update(a.detected, config.supplied[found.value])));
      } else if config.useAuto {
        OpenBusDevice(a);
      }
    }

    method ProbeTty(config: Config, tty: string, a: TtyAnswers)
      modifies this
      ensures Current() == TtyStep(old(Current()), config, tty, a)
    {
      hide OpenFound;
      if tty in notSerialWmbusDevices {
        return;
      }
      if "all" in config.doNotProbe || tty in config.doNotProbe {
        return;
      }
      if !a.inUse {
        trace := trace + [Probed(Serial, tty, a.probe.detected.kind == Unknown)];
        if a.probe.detected.kind != Unknown {
          OpenIfWanted(config, a.probe);
        } else {
          notSerialWmbusDevices := notSerialWmbusDevices + {tty};
        }
      }
    }

    method PerformAutoScanOfSerialDevices(config: Config, env: Environment)
      modifies this
      ensures Current() == AutoScan(old(Current()), config, env)
    {
      hide TtyStep, TtysStep, Listing;
      var ttys := env.listing(clock);
      clock := clock + 1;
      ListSerialTtys(ttys);
      ghost var s := Current();
      var i := 0;
      TtysNone(s, config, ttys[..0], env);
      while i < |ttys|
        invariant 0 <= i <= |ttys|
        invariant Current() == TtysStep(s, config, ttys[..i], env)
      {
        TtysNext(s, config, ttys, env, i);
        var now := clock;
        clock := clock + 1;
        ProbeTty(config, ttys[i], env.tty(now));
        i := i + 1;
      }
      assert ttys[..i] == ttys;
    }

    method ProbeRadio(config: Config, serial: string, a: RadioAnswers)
      modifies this
      ensures Current() == RadioStep(old(Current()), config, serial, a)
    {
      hide OpenFound;
      if serial in notSwradioWmbusDevices {
        return;
      }
      if !a.inUse {
        trace := trace + [Probed(Radio, serial, !a.accessible)];
        if !a.accessible {
          notSwradioWmbusDevices := notSwradioWmbusDevices + {serial};
        } else {
          OpenIfWanted(config, a.probe.(detected := a.probe.detected.(id := serial)));
        }
      }
    }

    method LookForPrograms(listing: RadioListing)
      modifies this`rtlsdrFound, this`rtlwmbusFound
      ensures Current() == FindPrograms(old(Current()), listing)
    {
      if |listing.serials| > 0 {
        if !rtlsdrFound || !rtlwmbusFound {
          rtlsdrFound := listing.rtlsdrInPath;
          rtlwmbusFound := listing.rtlwmbusInPath;
        }
      }
    }

    method ListRadios(serials: seq<string>)
      modifies this`trace, this`notSwradioWmbusDevices
      ensures Current() == RadioListed(old(Current()), serials)
    {
      hide Among;
      trace := trace + [Listed(Radio, serials)];
      notSwradioWmbusDevices := RemoveLost(notSwradioWmbusDevices, serials);
    }

    method PerformAutoScanOfSwradioDevices(config: Config, env: Environment)
      modifies this
      ensures Current() == RadioScan(old(Current()), config, env)
    {
      hide RadiosStep, FindPrograms, RadioListed;
      var listing := env.radios(clock);
      clock := clock + 1;
      LookForPrograms(listing);
      if !rtlsdrFound || !rtlwmbusFound {
        return;
      }
      ListRadios(listing.serials);
      ProbeRadios(config, listing.serials, env);
    }

    method ProbeRadios(config: Config, serials: seq<string>, env: Environment)
      modifies this
      ensures Current() == RadiosStep(old(Current()), config, serials, env)
    {
      hide RadioStep, RadiosStep;
      ghost var s := Current();
      var i := 0;
      RadiosNone(s, config, serials[..0], env);
      while i < |serials|
        invariant 0 <= i <= |serials|
        invariant Current() == RadiosStep(s, config, serials[..i], env)
      {
        RadiosNext(s, config, serials, env, i);
        var now := clock;
        clock := clock + 1;
        ProbeRadio(config, serials[i], env.radio(now));
        i := i + 1;
      }
      assert serials[..i] == serials;
    }

    /** Configured devices that an open device was detected as are handled. */
    method MarkAsHandled(supplied: seq<SpecifiedDevice>, flags: seq<bool>) returns (marked: seq<bool>)
      requires |flags| == |supplied|
      ensures marked == Marked(flags, supplied, busDevices)
    {
      hide Marked, FindSpecified;
      marked := flags;
      var i := 0;
      MarkedNone(flags, supplied, busDevices[..0]);
      while i < |busDevices|
        invariant 0 <= i <= |busDevices|
        invariant marked == Marked(flags, supplied, busDevices[..i])
      {
        MarkedNext(flags, supplied, busDevices, i);
        var found := FindSpecifiedDevice(supplied, busDevices[i].detected);
        if found.Some? {
          marked := marked[found.value := true];
        }
        i := i + 1;
      }
      assert busDevices[..i] == busDevices;
    }

    method RaiseAlarms(flags: seq<bool>, env: Environment)
      modifies this
      ensures Current() == AlarmsStep(old(Current()), flags, env)
    {
      hide AlarmsStep;
      ghost var s := Current();
      var i := 0;
      AlarmsNone(s, flags[..0], env);
      while i < |flags|
        invariant 0 <= i <= |flags|
        invariant Current() == AlarmsStep(s, flags[..i], env)
      {
        AlarmsNext(s, flags, env, i);
        if !flags[i] {
          var now := env.now(clock);
          clock := clock + 1;
          if now - (if i in lastAlarm then lastAlarm[i] else 0) > 60 {
            lastAlarm := lastAlarm[i := now];
            trace := trace + [Alarmed(i, now)];
          }
        }
        i := i + 1;
      }
      assert flags[..i] == flags;
    }

    method FindBusByAlias(alias: string) returns (r: Option<Device>)
      ensures r == FindBus(busDevices, alias)
    {
      var i := 0;
      while i < |busDevices|
        invariant 0 <= i <= |busDevices|
        invariant FindBus(busDevices, alias) == FindBus(busDevices[i..], alias)
      {
        assert busDevices[i..][1..] == busDevices[i + 1..];
        if busDevices[i].alias == alias {
          return Some(busDevices[i]);
        }
        i := i + 1;
      }
      return None;
    }

    method QueueSendBusContent(c: SendBusContent)
      modifies this
      ensures Current() == Enqueue(old(Current()), c)
    {
      busSendQueue := busSendQueue + [c];
      queued := queued + [c];
    }

    /** Hands every deliverable content to its bus, in order, and empties the queue. */
    method SendTheQueue()
      modifies this
      ensures Current() == SendQueue(old(Current()))
    {
      hide Delivery, Deliveries;
      var i := 0;
      DeliveriesNone(trace, busDevices, busSendQueue[..0], handled);
      while i < |busSendQueue|
        modifies this`trace
        invariant 0 <= i <= |busSendQueue|
        invariant trace == old(trace) + Deliveries(busDevices, busSendQueue[..i], handled)
      {
        DeliveriesNext(old(trace), busDevices, busSendQueue, handled, i);
        SendContent(busSendQueue[i], handled + i);
        i := i + 1;
      }
      assert busSendQueue[..i] == busSendQueue;
      handled := handled + |busSendQueue|;
      busSendQueue := [];
    }

    method SendContent(c: SendBusContent, ghost index: nat)
      modifies this`trace
      ensures trace == old(trace) + Delivery(busDevices, c, index)
    {
      var bus := FindBusByAlias(c.bus);
      if bus == None {
        return;
      }
      if |c.content| > 250 * 2 {
        return;
      }
      var ok, bytes := DecodeHex(c.content);
      if !ok {
        return;
      }
      trace := trace + [Sent(index, bus.value, c.startsWith, bytes)];
    }

    method PerformOperation(op: Operation, config: Config, env: Environment)
      modifies this
      ensures Current() == Perform(old(Current()), op, config, env)
    {
      hide Detect, Enqueue, SendQueue;
      match op
      case DetectDevices(all) => DetectAndConfigureWmbusDevices(config, all, env);
      case QueueContent(c) => QueueSendBusContent(c);
      case SendQueued => SendTheQueue();
      case RemoveAll => RemoveAllBusDevices();
    }

    /** Any run of the manager, from its creation on, stays within the promises made of runs. */
    static method Drive(ops: seq<Operation>, config: Config, env: Environment) returns (m: BusManager)
      ensures fresh(m) && m.Current() == Run(ops, config, env)
      ensures BusSafety.Patient(m.trace) && BusSafety.ReadOnce(m.trace) && BusSafety.RateLimited(m.trace)
      ensures BusSafety.InOrder(m.trace) && BusSafety.OnlyOpen(m.trace) && BusSafety.NoticedOnce(m.trace)
    {
      hide *;
      m := new BusManager();
      var i := 0;
      RunNone(ops[..0], config, env);
      while i < |ops|
        invariant 0 <= i <= |ops|
        invariant m.Current() == Run(ops[..i], config, env)
        invariant fresh(m)
      {
        RunNext(ops, config, env, i);
        m.PerformOperation(ops[i], config, env);
        i := i + 1;
      }
      assert ops[..i] == ops;
      BusSafety.RunIsSafe(ops, config, env);
      m.TraceIs(Run(ops, config, env));
    }

    lemma TraceIs(s: State)
      requires Current() == s
      ensures trace == s.trace
    {
    }
  }

  /** Names that are no longer among the devices stop being ignored. */
  method RemoveLost(ignored: set<string>, devices: seq<string>) returns (r: set<string>)
    ensures r == Among(ignored, devices)
  {
    var toBeRemoved: seq<string> := [];
    var rest := ignored;
    while rest != {}
      invariant rest <= ignored
      invariant forall name :: name in toBeRemoved <==> name in ignored && name !in rest && name !in devices
      decreases |rest|
    {
      var name :| name in rest;
      if name !in devices {
        toBeRemoved := toBeRemoved + [name];
      }
      rest := rest - {name};
    }
    r := ignored;
    var i := 0;
    while i < |toBeRemoved|
      invariant 0 <= i <= |toBeRemoved|
      invariant forall name :: name in r <==> name in ignored && name !in toBeRemoved[..i]
    {
      r := r - {toBeRemoved[i]};
      i := i + 1;
    }
    assert toBeRemoved[..i] == toBeRemoved;
  }

  method FindSpecifiedDevice(supplied: seq<SpecifiedDevice>, d: Detected) returns (r: Option<nat>)
    ensures r == FindSpecified(supplied, d)
    ensures r.Some? ==> StandsFor(supplied, d, r.value)
    ensures r.None? ==> forall i | 0 <= i < |supplied| :: !ByIdentity(supplied[i], d) && !ByKind(supplied[i], d)
  {
    hide FindSpecified;
    FindSpecifiedIff(supplied, d);
    var i := 0;
    while i < |supplied|
      invariant 0 <= i <= |supplied|
      invariant forall j | 0 <= j < i :: !ByIdentity(supplied[j], d)
    {
      var sd := supplied[i];
      if sd.file == "" && sd.id != "" && sd.id == d.id
        && (sd.kind == d.kind || (sd.kind == Rtl433 && d.kind == RtlWmbus))
      {
        assert StandsFor(supplied, d, i);
        return Some(i);
      }
      i := i + 1;
    }
    i := 0;
    while i < |supplied|
      invariant 0 <= i <= |supplied|
      invariant forall j | 0 <= j < i :: !ByKind(supplied[j], d)
    {
      var sd := supplied[i];
      if sd.file == "" && sd.id == "" && (sd.kind == d.kind || (sd.kind == Rtl433 && d.kind == RtlWmbus)) {
        assert StandsFor(supplied, d, i);
        return Some(i);
      }
      i := i + 1;
    }
    return None;
  }

  /** The hexadecimal text `s` of which the part before `i` has given `bytes`. */
  predicate Decoding(s: string, i: nat, bytes: seq<byte>) {
    i <= |s| && Hex2Bin(s) == (Hex2Bin(s[i..]).0, bytes + Hex2Bin(s[i..]).1)
  }

  lemma DecodingStart(s: string)
    ensures Decoding(s, 0, [])
  {
    hide Hex2Bin;
    assert s[0..] == s;
    assert [] + Hex2Bin(s).1 == Hex2Bin(s).1;
  }

  lemma DecodingBlank(s: string, i: nat, bytes: seq<byte>)
    requires Decoding(s, i, bytes) && i + 1 < |s| && s[i] == ' '
    ensures Decoding(s, i + 1, bytes)
  {
    assert s[i..][1..] == s[i + 1..];
  }

  lemma Hex2BinPair(s: string, i: nat)
    requires i + 1 < |s| && s[i] != ' '
    ensures var hi, lo := Char2Int(s[i]), Char2Int(s[i + 1]);
            if hi < 0 || lo < 0 then Hex2Bin(s[i..]) == (false, [])
            else
              && hi * 16 + lo < 256
              && Hex2Bin(s[i..]) == (Hex2Bin(s[i + 2..]).0, [hi * 16 + lo] + Hex2Bin(s[i + 2..]).1)
  {
    hide Char2Int;
    CharBelow(s[i]);
    CharBelow(s[i + 1]);
    assert s[i..][2..] == s[i + 2..];
  }

  lemma DecodingPair(s: string, i: nat, bytes: seq<byte>)
    requires Decoding(s, i, bytes) && i + 1 < |s| && s[i] != ' '
    ensures var hi, lo := Char2Int(s[i]), Char2Int(s[i + 1]);
            if hi < 0 || lo < 0 then Hex2Bin(s) == (false, bytes)
            else hi * 16 + lo < 256 && Decoding(s, i + 2, bytes + [hi * 16 + lo])
  {
    hide Char2Int, Hex2Bin;
    var hi, lo := Char2Int(s[i]), Char2Int(s[i + 1]);
    Hex2BinPair(s, i);
    if hi < 0 || lo < 0 {
      assert bytes + [] == bytes;
    } else {
      var rest := Hex2Bin(s[i + 2..]).1;
      assert bytes + ([hi * 16 + lo] + rest) == (bytes + [hi * 16 + lo]) + rest;
    }
  }

  lemma CharBelow(c: char)
    ensures Char2Int(c) < 16
  {
  }

  lemma DecodingEnd(s: string, i: nat, bytes: seq<byte>)
    requires Decoding(s, i, bytes) && |s| <= i + 1
    ensures Hex2Bin(s) == (true, bytes)
  {
    assert bytes + [] == bytes;
  }

  method DecodeHex(s: string) returns (ok: bool, bytes: seq<byte>)
    ensures (ok, bytes) == Hex2Bin(s)
  {
    hide Hex2Bin, Decoding;
    bytes := [];
    var i := 0;
    DecodingStart(s);
    while i + 1 < |s|
      invariant 0 <= i <= |s|
      invariant Decoding(s, i, bytes)
    {
      if s[i] == ' ' {
        DecodingBlank(s, i, bytes);
        i := i + 1;
      } else {
        DecodingPair(s, i, bytes);
        var hi, lo := Char2Int(s[i]), Char2Int(s[i + 1]);
        if hi < 0 || lo < 0 {
          return false, bytes;
        }
        bytes := bytes + [hi * 16 + lo];
        i := i + 2;
      }
    }
    DecodingEnd(s, i, bytes);
    ok := true;
  }
}
