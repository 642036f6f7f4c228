/** The single steps of a detection round, each by the conditions on its inputs that decide it. */
module BusSteps {
  import opened Hex
  import opened BusSpec

  /** Whether a configured file is detected: unless it is in use, was read before, is ignored and still listed, or is
      not there. */
  predicate Detects(s: State, file: string, a: DeviceAnswers) {
    && !a.fileInUse && file !in s.simulationFiles && file !in s.doNotOpen
    && (file !in s.notSerial || file !in a.ttys)
    && (a.isCharacterDevice || a.fileExists || file == "stdin")
  }

  /** A file that is not detected leaves no trace but a listing; the listing shows which names are still ignored. */
  lemma FileNotDetected(s: State, file: string, a: DeviceAnswers)
    requires !Detects(s, file, a)
    ensures var s' := FileStep(s, file, a);
            && s' == s.(notSerial := s'.notSerial, trace := s'.trace)
            && (s'.trace == s.trace || s'.trace == s.trace + [Listed(Serial, a.ttys)])
            && (file in s'.notSerial ==> file in s.notSerial)
            && (file in s.notSerial && file in a.ttys ==> file in s'.notSerial)
  {
  }

  /** A file that is detected is ignored from then on if it is a character device with nothing behind it, and read
      only this once if it is the standard input, a plain file or a simulation. */
  lemma FileDetection(s: State, file: string, a: DeviceAnswers)
    requires Detects(s, file, a)
    ensures var s', d := FileStep(s, file, a), a.file.detected;
            var failed := d.kind == Unknown && a.isStillCharacterDevice;
            var once := d.isStdin || d.isFile || d.isSimulation;
            && (file in s'.notSerial <==> failed)
            && (forall f :: f in s'.doNotOpen <==> f in s.doNotOpen || (once && f == file))
            && (s'.devices != s.devices <==> d.kind != Unknown && a.file.created.Some?)
            && exists i | |s.trace| <= i < |s'.trace| :: s'.trace[i] == FileDetected(file, failed, once)
  {
    var s1 := if file in s.notSerial then Listing(s, a.ttys) else s;
    assert file !in s1.notSerial;
    FileDetectionOf(s1, file, a);
  }

  lemma FileDetectionOf(s: State, file: string, a: DeviceAnswers)
    requires file !in s.notSerial
    ensures var s', d := DetectFile(s, file, a), a.file.detected;
            var failed := d.kind == Unknown && a.isStillCharacterDevice;
            var once := d.isStdin || d.isFile || d.isSimulation;
            && (file in s'.notSerial <==> failed)
            && (forall f :: f in s'.doNotOpen <==> f in s.doNotOpen || (once && f == file))
            && (s'.devices != s.devices <==> d.kind != Unknown && a.file.created.Some?)
            && |s.trace| < |s'.trace| && s'.trace[|s.trace|] == FileDetected(file, failed, once)
  {
  }

  /** A configured device is looked at in a round for all devices, and otherwise only if it is the standard input, a
      file or a simulation. It is then handled if it has a command or hexadecimal data, or its file is not missing. */
  lemma HandledIff(s: State, all: bool, sd: SpecifiedDevice, a: DeviceAnswers)
    ensures StepHandles(s, all, sd, a) <==>
            && (all || (!sd.isTty && (sd.isStdin || sd.isFile || sd.isSimulation)))
            && (|| sd.command != "" || sd.hex != ""
                || (&& sd.file != ""
                    && (|| a.fileInUse || sd.file in s.simulationFiles || sd.file in s.doNotOpen
                        || (sd.file in s.notSerial && sd.file in a.ttys)
                        || a.isCharacterDevice || a.fileExists || sd.file == "stdin")))
  {
  }

  /** A device that a scan found is opened if some configured device fits it, or if any device will do. */
  lemma OpenFoundIff(s: State, config: Config, a: Answer)
    requires a.detected.kind != Unknown && a.created.Some?
    ensures var s' := OpenFound(s, config, a);
            && (s'.devices != s.devices
                <==> config.useAuto
                     || exists sd | sd in config.supplied :: ByIdentity(sd, a.detected) || ByKind(sd, a.detected))
            && (s'.devices != s.devices ==>
                  && |s'.devices| == |s.devices| + 1 && s'.devices[..|s.devices|] == s.devices
                  && var w := s'.devices[|s.devices|];
                  w == a.created.value.(detected := w.detected) && w.detected.id == a.detected.id)
  {
    hide FindSpecified, ByIdentity, ByKind;
    FindSpecifiedIff(config.supplied, a.detected);
  }

  ghost predicate OpenedUnder(s: State, s': State, serials: seq<string>) {
    forall w | w in s'.devices :: w in s.devices || w.detected.id in serials
  }

  lemma RadioStepOpens(s: State, config: Config, serial: string, a: RadioAnswers)
    ensures OpenedUnder(s, RadioStep(s, config, serial, a), [serial])
  {
    hide FindSpecified;
  }

  lemma {:induction false} RadiosOpen(s: State, config: Config, serials: seq<string>, env: Environment)
    ensures OpenedUnder(s, RadiosStep(s, config, serials, env), serials)
  {
    hide RadioStep;
    if serials != [] {
      var n := |serials| - 1;
      RadiosOpen(s, config, serials[..n], env);
      var s' := RadiosStep(s, config, serials[..n], env);
      RadioStepOpens(Tick(s'), config, serials[n], env.radio(s'.clock));
    }
  }

  /** Whatever the environment answers, every device that a scan for radios opens is known by the serial number of a
      radio that was listed. */
  lemma RadioScanOpens(s: State, config: Config, env: Environment)
    ensures OpenedUnder(s, RadioScan(s, config, env), env.radios(s.clock).serials)
  {
    hide RadiosStep;
    var a := env.radios(s.clock);
    RadiosOpen(RadioListed(FindPrograms(Tick(s), a), a.serials), config, a.serials, env);
  }

  /** Hexadecimal text of at most 250 bytes is delivered exactly if there is a bus of that name. */
  lemma HexIsDelivered(devices: seq<Device>, bus: string, bytes: seq<byte>, startsWith: ContentStartsWith)
    ensures Deliverable(devices, SendBusContent(bus, Bin2Hex(bytes), startsWith))
       <==> |bytes| <= 250 && exists w | w in devices :: w.alias == bus
  {
    Hex2BinInverse(bytes);
    var r := FindBus(devices, bus);
    hide FindBus, Hex2Bin, Bin2Hex;
    if r.Some? {
      assert r.value in devices && r.value.alias == bus;
    }
  }
}
