/** What holds over every run of the bus manager, whatever its environment answers. */
module BusSafety {
  import opened Hex
  import opened Wrappers
  import opened BusSpec

  // --- The promises, on traces

  /** A try at a name: a probe on a medium, or the detection of a file, which counts as serial. */
  predicate Attempts(e: Event, m: Medium, name: string) {
    (e.Probed? && e.medium == m && e.name == name) || (e.FileDetected? && m == Serial && e.file == name)
  }

  predicate Fails(e: Event, m: Medium, name: string) {
    Attempts(e, m, name) && e.failed
  }

  predicate Unplugged(e: Event, m: Medium, name: string) {
    e.Listed? && e.medium == m && name !in e.names
  }

  /** After a failed attempt at a name there is no other attempt until a listing without that name. */
  ghost predicate Patient(trace: seq<Event>) {
    forall i, j, m, name | 0 <= i < j < |trace| && Fails(trace[i], m, name) && Attempts(trace[j], m, name) ::
      exists k :: i < k < j && Unplugged(trace[k], m, name)
  }

  /** A file that was detected as something to read once, or opened as a simulation. */
  predicate Reads(e: Event, file: string) {
    (e.FileDetected? && e.once && e.file == file) || (e.Opened? && e.simulates == Some(file))
  }

  /** Such a file is not detected again. */
  ghost predicate ReadOnce(trace: seq<Event>) {
    forall i, j | 0 <= i < j < |trace| && trace[j].FileDetected? :: !Reads(trace[i], trace[j].file)
  }

  /** Alarms for the same device are more than sixty seconds apart. */
  ghost predicate RateLimited(trace: seq<Event>) {
    forall i, j | 0 <= i < j < |trace| && trace[i].Alarmed? && trace[j].Alarmed? ::
      trace[i].position == trace[j].position ==> trace[j].now - trace[i].now > 60
  }

  /** Contents are handed over in the order in which they were queued, each at most once. */
  ghost predicate InOrder(trace: seq<Event>) {
    forall i, j | 0 <= i < j < |trace| && trace[i].Sent? && trace[j].Sent? :: trace[i].index < trace[j].index
  }

  /** What is handed over is a queued content, decoded, on a bus with the alias it was queued for. */
  ghost predicate Genuine(trace: seq<Event>, queued: seq<SendBusContent>, bound: nat)
    requires bound <= |queued|
  {
    forall i | 0 <= i < |trace| && trace[i].Sent? ::
      && trace[i].index < bound
      && trace[i].device.alias == queued[trace[i].index].bus
      && trace[i].startsWith == queued[trace[i].index].startsWith
      && |queued[trace[i].index].content| <= 500
      && Hex2Bin(queued[trace[i].index].content) == (true, trace[i].bytes)
  }

  /** A device was opened since the last notice that there is none. */
  ghost predicate OpenedAt(trace: seq<Event>, k: nat) {
    k < |trace| && trace[k].Opened? && forall i | k < i < |trace| :: !trace[i].NoDevice?
  }

  /** It is noticed that there is no device only after there was one, once each time, and when none is open. */
  ghost predicate NoticedOnce(trace: seq<Event>) {
    forall j | 0 <= j < |trace| && trace[j].NoDevice? ::
      HistoryOf(trace[..j]).live == [] && exists k: nat :: OpenedAt(trace[..j], k)
  }

  /** Contents are handed to, and closing concerns, devices that are open at that moment. */
  ghost predicate OnlyOpen(trace: seq<Event>) {
    forall i | 0 <= i < |trace| && (trace[i].Sent? || trace[i].Closed?) :: trace[i].device in HistoryOf(trace[..i]).live
  }

  // --- What a trace says

  /** The ignored names of both media, the files to leave alone, the open devices in the order they were opened, the
      latest alarms, one more than the index of the last content that was handed over, and whether no device was
      opened since the last notice that there is none. */
  datatype History = History(
    serial: set<string>, radio: set<string>, read: set<string>, simulated: set<string>,
    live: seq<Device>, alarms: map<nat, int>, next: nat, quiet: bool)
  {
    function Ignored(m: Medium): set<string> {
      if m == Serial then serial else radio
    }
  }

  function Only(file: string, really: bool): set<string> {
    if really then {file} else {}
  }

  function After(h: History, e: Event): History {
    match e
    case Opened(d, simulates) =>
      h.(live := h.live + [d], simulated := h.simulated + (if simulates.Some? then {simulates.value} else {}),
         quiet := false)
    case Closed(d) => h.(live := Without(h.live, d))
    case AllRemoved => h.(live := [])
    case FileDetected(file, failed, once) =>
      h.(serial := h.serial + Only(file, failed), read := h.read + Only(file, once))
    case Listed(m, names) =>
      if m == Serial then h.(serial := Among(h.serial, names)) else h.(radio := Among(h.radio, names))
    case Probed(m, name, failed) =>
      if m == Serial then h.(serial := h.serial + Only(name, failed)) else h.(radio := h.radio + Only(name, failed))
    case Alarmed(n, now) => h.(alarms := h.alarms[n := now])
    case Sent(i, _, _, _) => h.(next := i + 1)
    case NoDevice(_) => h.(quiet := true)
    case _ => h
  }

  const NOTHING := History({}, {}, {}, {}, [], map[], 0, true)

  function HistoryOf(trace: seq<Event>): History {
    if trace == [] then NOTHING else After(HistoryOf(trace[..|trace| - 1]), trace[|trace| - 1])
  }

  predicate Allowed(h: History, e: Event) {
    match e
    case Closed(d) => d in h.live
    case FileDetected(file, _, _) => file !in h.serial && file !in h.read && file !in h.simulated
    case Probed(m, name, _) => name !in h.Ignored(m)
    case Alarmed(n, now) => now - LastAlarm(h.alarms, n) > 60
    case Sent(i, d, _, _) => h.next <= i && d in h.live
    case NoDevice(_) => h.live == [] && !h.quiet
    case _ => true
  }

  predicate Lawful(trace: seq<Event>) {
    trace == [] || (Lawful(trace[..|trace| - 1]) && Allowed(HistoryOf(trace[..|trace| - 1]), trace[|trace| - 1]))
  }

  lemma Append(trace: seq<Event>, e: Event)
    ensures HistoryOf(trace + [e]) == After(HistoryOf(trace), e)
    ensures Lawful(trace + [e]) <==> Lawful(trace) && Allowed(HistoryOf(trace), e)
  {
    hide After, Allowed;
    assert (trace + [e])[..|trace|] == trace;
  }

  lemma {:induction false} LawfulAt(trace: seq<Event>, j: nat)
    requires Lawful(trace) && j < |trace|
    ensures Lawful(trace[..j]) && Allowed(HistoryOf(trace[..j]), trace[j])
  {
    hide Allowed, HistoryOf;
    var n := |trace| - 1;
    if j < n {
      LawfulAt(trace[..n], j);
      assert trace[..n][..j] == trace[..j];
    }
  }

  // --- What is ignored, read and remembered, in terms of the trace alone

  ghost predicate StillThere(trace: seq<Event>, m: Medium, name: string, i: nat) {
    i < |trace| && Fails(trace[i], m, name) && forall k | i < k < |trace| :: !Unplugged(trace[k], m, name)
  }

  ghost predicate IsStillThere(trace: seq<Event>, m: Medium, name: string) {
    exists i: nat :: StillThere(trace, m, name, i)
  }

  lemma StillThereNext(trace: seq<Event>, e: Event, m: Medium, name: string)
    ensures IsStillThere(trace + [e], m, name)
       <==> Fails(e, m, name) || (IsStillThere(trace, m, name) && !Unplugged(e, m, name))
  {
    hide Fails, Unplugged;
    var all, n := trace + [e], |trace|;
    assert all[n] == e;
    if Fails(e, m, name) {
      assert StillThere(all, m, name, n);
    } else {
      if i: nat :| StillThere(all, m, name, i) {
        assert all[i] == trace[i];
        assert forall k | i < k < n :: all[k] == trace[k];
        assert StillThere(trace, m, name, i);
      }
      if i: nat :| StillThere(trace, m, name, i) && !Unplugged(e, m, name) {
        assert forall k | 0 <= k < n :: all[k] == trace[k];
        assert StillThere(all, m, name, i);
      }
    }
  }

  /** The ignore lists hold exactly the names with a failed attempt that every later listing still had. */
  lemma {:induction false} IgnoredIff(trace: seq<Event>, m: Medium, name: string)
    ensures name in HistoryOf(trace).Ignored(m) <==> IsStillThere(trace, m, name)
  {
    if trace != [] {
      hide After, HistoryOf, Lawful, IsStillThere, Fails, Unplugged;
      var before, e := trace[..|trace| - 1], trace[|trace| - 1];
      IgnoredIff(before, m, name);
      Append(before, e);
      assert before + [e] == trace;
      IgnoredAfter(HistoryOf(before), e, m, name);
      StillThereNext(before, e, m, name);
    }
  }

  lemma IgnoredAfter(h: History, e: Event, m: Medium, name: string)
    ensures name in After(h, e).Ignored(m)
       <==> Fails(e, m, name) || (name in h.Ignored(m) && !Unplugged(e, m, name))
  {
  }

  lemma {:induction false} ReadIff(trace: seq<Event>, file: string)
    ensures file in HistoryOf(trace).read + HistoryOf(trace).simulated
       <==> exists i | 0 <= i < |trace| :: Reads(trace[i], file)
  {
    if trace != [] {
      var n := |trace| - 1;
      ReadIff(trace[..n], file);
      ReadAfter(HistoryOf(trace[..n]), trace[n], file);
      hide After, Reads;
      if i :| 0 <= i < |trace| && Reads(trace[i], file) {
        if i < n {
          assert Reads(trace[..n][i], file);
        }
      }
      if i :| 0 <= i < n && Reads(trace[..n][i], file) {
        assert Reads(trace[i], file);
      }
    }
  }

  lemma ReadAfter(h: History, e: Event, file: string)
    ensures file in After(h, e).read + After(h, e).simulated <==> file in h.read + h.simulated || Reads(e, file)
  {
  }

  lemma {:induction false} NextAbove(trace: seq<Event>, i: nat)
    requires Lawful(trace) && i < |trace| && trace[i].Sent?
    ensures trace[i].index < HistoryOf(trace).next
  {
    var n := |trace| - 1;
    if i < n {
      NextAbove(trace[..n], i);
    }
  }

  lemma {:induction false} AlarmsGrow(trace: seq<Event>, i: nat)
    requires Lawful(trace) && i < |trace| && trace[i].Alarmed?
    ensures var h := HistoryOf(trace); trace[i].position in h.alarms && trace[i].now <= h.alarms[trace[i].position]
  {
    var n := |trace| - 1;
    if i < n {
      AlarmsGrow(trace[..n], i);
    }
  }

  lemma {:induction false} QuietIff(trace: seq<Event>)
    ensures HistoryOf(trace).quiet <==> forall k: nat :: !OpenedAt(trace, k)
  {
    if trace != [] {
      var n := |trace| - 1;
      QuietIff(trace[..n]);
      OpenedNext(trace[..n], trace[n]);
      assert trace[..n] + [trace[n]] == trace;
    }
  }

  lemma OpenedNext(trace: seq<Event>, e: Event)
    ensures (exists k: nat :: OpenedAt(trace + [e], k))
       <==> e.Opened? || (!e.NoDevice? && exists k: nat :: OpenedAt(trace, k))
  {
    var all, n := trace + [e], |trace|;
    assert all[n] == e && forall i | 0 <= i < n :: all[i] == trace[i];
    if e.Opened? {
      assert OpenedAt(all, n);
    } else {
      if k: nat :| OpenedAt(all, k) {
        assert OpenedAt(trace, k);
      }
      if k: nat :| OpenedAt(trace, k) && !e.NoDevice? {
        assert OpenedAt(all, k);
      }
    }
  }

  lemma LawfulNoticesOnce(trace: seq<Event>)
    requires Lawful(trace)
    ensures NoticedOnce(trace)
  {
    hide HistoryOf, Lawful, OpenedAt;
    forall j | 0 <= j < |trace| && trace[j].NoDevice?
      ensures HistoryOf(trace[..j]).live == [] && exists k: nat :: OpenedAt(trace[..j], k)
    {
      LawfulAt(trace, j);
      QuietIff(trace[..j]);
    }
  }

  lemma LawfulIsPatient(trace: seq<Event>)
    requires Lawful(trace)
    ensures Patient(trace)
  {
    hide HistoryOf, Lawful;
    forall i, j, m, name | 0 <= i < j < |trace| && Fails(trace[i], m, name) && Attempts(trace[j], m, name)
      ensures exists k :: i < k < j && Unplugged(trace[k], m, name)
    {
      LawfulAt(trace, j);
      IgnoredIff(trace[..j], m, name);
      assert !StillThere(trace[..j], m, name, i);
      var k :| i < k < j && Unplugged(trace[..j][k], m, name);
      assert Unplugged(trace[k], m, name);
    }
  }

  lemma LawfulReadsOnce(trace: seq<Event>)
    requires Lawful(trace)
    ensures ReadOnce(trace)
  {
    hide HistoryOf, Lawful, Reads;
    forall i, j | 0 <= i < j < |trace| && trace[j].FileDetected?
      ensures !Reads(trace[i], trace[j].file)
    {
      LawfulAt(trace, j);
      ReadIff(trace[..j], trace[j].file);
      assert trace[..j][i] == trace[i];
    }
  }

  lemma LawfulIsRateLimited(trace: seq<Event>)
    requires Lawful(trace)
    ensures RateLimited(trace)
  {
    hide HistoryOf, Lawful;
    forall i, j | 0 <= i < j < |trace| && trace[i].Alarmed? && trace[j].Alarmed?
      ensures trace[i].position == trace[j].position ==> trace[j].now - trace[i].now > 60
    {
      LawfulAt(trace, j);
      AlarmsGrow(trace[..j], i);
    }
  }

  lemma LawfulIsInOrder(trace: seq<Event>)
    requires Lawful(trace)
    ensures InOrder(trace)
  {
    hide HistoryOf, Lawful;
    forall i, j | 0 <= i < j < |trace| && trace[i].Sent? && trace[j].Sent?
      ensures trace[i].index < trace[j].index
    {
      LawfulAt(trace, j);
      NextAbove(trace[..j], i);
    }
  }

  lemma LawfulIsOnlyOpen(trace: seq<Event>)
    requires Lawful(trace)
    ensures OnlyOpen(trace)
  {
    hide HistoryOf, Lawful;
    forall i | 0 <= i < |trace| && (trace[i].Sent? || trace[i].Closed?)
      ensures trace[i].device in HistoryOf(trace[..i]).live
    {
      LawfulAt(trace, i);
    }
  }

  // --- The invariant

  /** The state remembers exactly what its trace says. */
  ghost predicate Matches(s: State, h: History) {
    && s.notSerial == h.serial && s.notRadio == h.radio && s.doNotOpen == h.read && s.simulationFiles == h.simulated
    && s.devices == h.live && s.lastAlarm == h.alarms
    && (h.quiet ==> s.printedWarning && s.devices == [])
  }

  ghost predicate Tracked(s: State) {
    Lawful(s.trace) && Matches(s, HistoryOf(s.trace))
  }

  /** The first `done` of the queued contents have been handled, and nothing else has been sent. */
  ghost predicate SentUpTo(s: State, done: nat) {
    done <= |s.queued| && HistoryOf(s.trace).next <= done && Genuine(s.trace, s.queued, done)
  }

  ghost predicate Good(s: State) {
    && Tracked(s)
    && SentUpTo(s, s.handled)
    && s.queue == s.queued[s.handled..]
  }

  predicate SameContents(s: State, s': State) {
    s'.queue == s.queue && s'.queued == s.queued && s'.handled == s.handled
  }

  function Sends(trace: seq<Event>): seq<Event> {
    if trace == [] then []
    else Sends(trace[..|trace| - 1]) + (if trace[|trace| - 1].Sent? then [trace[|trace| - 1]] else [])
  }

  /** A step that keeps the invariant and sends nothing. */
  ghost predicate Keeps(s: State, s': State) {
    Good(s') && SameContents(s, s') && Sends(s'.trace) == Sends(s.trace)
  }

  lemma Record(s: State, e: Event, s': State)
    requires Good(s) && !e.Sent? && Allowed(HistoryOf(s.trace), e)
    requires s'.trace == s.trace + [e] && SameContents(s, s') && Matches(s', After(HistoryOf(s.trace), e))
    ensures Keeps(s, s')
  {
    hide HistoryOf, Lawful, Hex2Bin;
    NextAfter(HistoryOf(s.trace), e);
    hide After, Allowed, Matches;
    Append(s.trace, e);
    assert s'.trace[..|s.trace|] == s.trace;
  }

  lemma NextAfter(h: History, e: Event)
    requires !e.Sent?
    ensures After(h, e).next == h.next
  {
  }

  predicate Neutral(e: Event) {
    e.ExpectDevices? || e.CommandDetected? || e.HexDetected?
  }

  lemma RecordNeutral(s: State, e: Event, s': State)
    requires Good(s) && Neutral(e) && s' == s.(trace := s.trace + [e], printedWarning := s'.printedWarning)
    requires s.printedWarning && s.devices == [] ==> s'.printedWarning
    ensures Keeps(s, s')
  {
    hide HistoryOf, Lawful;
    Record(s, e, s');
  }

  lemma RecordNotice(s: State, exiting: bool, s': State)
    requires Good(s) && s.devices == [] && !s.printedWarning
    requires s' == s.(trace := s.trace + [NoDevice(exiting)], printedWarning := true)
    ensures Keeps(s, s')
  {
    hide HistoryOf, Lawful;
    Record(s, NoDevice(exiting), s');
  }

  /** Only what the trace does not speak of has changed. */
  lemma Unseen(s: State, s': State)
    requires Good(s)
    requires s' == s.(clock := s'.clock, printedWarning := s'.printedWarning, rtlsdrFound := s'.rtlsdrFound,
                      rtlwmbusFound := s'.rtlwmbusFound)
    requires s.printedWarning && s.devices == [] ==> s'.printedWarning
    ensures Keeps(s, s')
  {
  }

  // --- Dead devices

  function WithoutAll(devices: seq<Device>, dead: seq<Device>): seq<Device>
    decreases |dead|
  {
    if dead == [] then devices else WithoutAll(Without(devices, dead[0]), dead[1..])
  }

  /** Erasing the devices that do not work, one after the other, leaves those that do. */
  lemma {:induction false} WithoutDead(devices: seq<Device>, working: Device -> bool)
    ensures WithoutAll(devices, Having(devices, working, false)) == Having(devices, working, true)
    decreases |Having(devices, working, false)|
  {
    var dead := Having(devices, working, false);
    if dead == [] {
      AllWorking(devices, working);
    } else {
      EraseFirstDead(devices, working);
      WithoutDead(Without(devices, dead[0]), working);
    }
  }

  lemma {:induction false} HavingIn(devices: seq<Device>, working: Device -> bool, value: bool)
    ensures forall w | w in Having(devices, working, value) :: w in devices
  {
    if devices != [] {
      HavingIn(devices[1..], working, value);
    }
  }

  lemma {:induction false} CloseAll(s: State, dead: seq<Device>, working: Device -> bool)
    requires Good(s) && dead == Having(s.devices, working, false)
    ensures Keeps(s, s.(devices := WithoutAll(s.devices, dead), trace := s.trace + Closings(dead)))
    decreases |dead|
  {
    hide Good, HistoryOf, Lawful, Closings;
    if dead == [] {
      assert s.trace + Closings(dead) == s.trace by { ClosingsNone(dead); }
      Unseen(s, s);
    } else {
      var w := dead[0];
      var s' := s.(devices := Without(s.devices, w), trace := s.trace + [Closed(w)]);
      HavingIn(s.devices, working, false);
      CloseOne(s, w, s');
      EraseFirstDead(s.devices, working);
      CloseAll(s', dead[1..], working);
      assert s'.trace + Closings(dead[1..]) == s.trace + Closings(dead) by { ClosingsCons(s.trace, dead); }
    }
  }

  lemma CloseOne(s: State, w: Device, s': State)
    requires Good(s) && w in s.devices && s' == s.(devices := Without(s.devices, w), trace := s.trace + [Closed(w)])
    ensures Keeps(s, s')
  {
    hide HistoryOf, Lawful, Without;
    Record(s, Closed(w), s');
  }

  lemma ClosingsNone(dead: seq<Device>)
    requires dead == []
    ensures Closings(dead) == []
  {
  }

  lemma ClosingsCons(before: seq<Event>, dead: seq<Device>)
    requires dead != []
    ensures (before + [Closed(dead[0])]) + Closings(dead[1..]) == before + Closings(dead)
  {
  }

  lemma CheckForDeadKeeps(s: State, config: Config, working: Device -> bool)
    requires Good(s)
    ensures Keeps(s, CheckForDead(s, config, working))
  {
    hide Good, Having, WithoutAll, Closings, Sends;
    var dead := Having(s.devices, working, false);
    CloseAll(s, dead, working);
    WithoutDead(s.devices, working);
    var s' := s.(devices := Having(s.devices, working, true), trace := s.trace + Closings(dead));
    var n := Notices(s', config);
    if n == [] {
      assert s'.trace + n == s'.trace;
      Unseen(s', Notified(s', config));
    } else if n[0].NoDevice? {
      RecordNotice(s', config.noDeviceExit, Notified(s', config));
    } else {
      RecordNeutral(s', n[0], Notified(s', config));
    }
  }

  // --- Detection

  lemma OpenKeeps(s: State, a: Answer)
    requires Good(s)
    ensures Keeps(s, Open(s, a))
  {
    hide HistoryOf, Lawful;
    if a.detected.kind == Unknown || a.created == None {
      Unseen(s, s);
    } else {
      var w := a.created.value.(detected := a.detected);
      var simulates := if a.detected.kind == Simulation then Some(a.detected.file) else None;
      Record(s, Opened(w, simulates), Open(s, a));
    }
  }

  lemma ListingKeeps(s: State, ttys: seq<string>)
    requires Good(s)
    ensures Keeps(s, Listing(s, ttys)) && Keeps(s, RadioListed(s, ttys))
  {
    hide HistoryOf, Lawful;
    Record(s, Listed(Serial, ttys), Listing(s, ttys));
    Record(s, Listed(Radio, ttys), RadioListed(s, ttys));
  }

  lemma DetectFileKeeps(s: State, file: string, a: DeviceAnswers)
    requires Good(s) && file !in s.notSerial && file !in s.doNotOpen && file !in s.simulationFiles
    ensures Keeps(s, DetectFile(s, file, a))
  {
    hide HistoryOf, Lawful, Open;
    var d := a.file.detected;
    var failed := d.kind == Unknown && a.isStillCharacterDevice;
    var e := FileDetected(file, failed, Once(d));
    var s' := s.(trace := s.trace + [e],
                 notSerial := s.notSerial + (if failed then {file} else {}),
                 doNotOpen := s.doNotOpen + (if Once(d) then {file} else {}));
    Record(s, e, s');
    OpenKeeps(s', a.file);
  }

  lemma FileStepKeeps(s: State, file: string, a: DeviceAnswers)
    requires Good(s)
    ensures Keeps(s, FileStep(s, file, a))
  {
    hide Good, DetectFile, Sends;
    Unseen(s, s);
    if !(a.fileInUse || file in s.simulationFiles || file in s.doNotOpen) {
      var s' := if file in s.notSerial then Listing(s, a.ttys) else s;
      ListingKeeps(s, a.ttys);
      if file !in s'.notSerial {
        DetectFileKeeps(s', file, a);
      }
    }
  }

  lemma DeviceStepKeeps(s: State, all: bool, sd: SpecifiedDevice, a: DeviceAnswers)
    requires Good(s)
    ensures Keeps(s, DeviceStep(s, all, sd, a))
  {
    hide Good, FileStep, Open, Sends;
    Unseen(s, s);
    var c := s.(trace := s.trace + [CommandDetected(sd.index)]);
    RecordNeutral(s, CommandDetected(sd.index), c);
    OpenKeeps(c, a.command);
    var s1 := CommandStep(s, sd, a);
    var h := s1.(trace := s1.trace + [HexDetected(sd.hex)]);
    RecordNeutral(s1, HexDetected(sd.hex), h);
    OpenKeeps(h, a.hex);
    FileStepKeeps(HexStep(s1, sd, a), sd.file, a);
  }

  lemma {:induction false} DevicesStepKeeps(s: State, all: bool, supplied: seq<SpecifiedDevice>, env: Environment)
    requires Good(s)
    ensures Keeps(s, DevicesStep(s, all, supplied, env))
  {
    hide Good, DeviceStep, Sends;
    if supplied == [] {
      Unseen(s, s);
    } else {
      var n := |supplied| - 1;
      DevicesStepKeeps(s, all, supplied[..n], env);
      var s' := DevicesStep(s, all, supplied[..n], env);
      Unseen(s', Tick(s'));
      DeviceStepKeeps(Tick(s'), all, supplied[n], env.device(s'.clock));
    }
  }

  // --- Scans

  lemma OpenFoundKeeps(s: State, config: Config, a: Answer)
    requires Good(s)
    ensures Keeps(s, OpenFound(s, config, a))
  {
    hide Good, Open, FindSpecified, Update, Sends;
    Unseen(s, s);
    OpenKeeps(s, a);
    var i := FindSpecified(config.supplied, a.detected);
    if i.Some? {
      OpenKeeps(s, a.(detected := Update(a.detected, config.supplied[i.value])));
    }
  }

  lemma ProbedKeeps(s: State, m: Medium, name: string, failed: bool)
    requires Good(s) && name !in (if m == Serial then s.notSerial else s.notRadio)
    ensures var s' := s.(trace := s.trace + [Probed(m, name, failed)]);
            Keeps(s, if !failed then s' else if m == Serial then s'.(notSerial := s.notSerial + {name})
                     else s'.(notRadio := s.notRadio + {name}))
  {
    hide HistoryOf, Lawful;
    var s' := s.(trace := s.trace + [Probed(m, name, failed)]);
    Record(s, Probed(m, name, failed),
           if !failed then s' else if m == Serial then s'.(notSerial := s.notSerial + {name})
           else s'.(notRadio := s.notRadio + {name}));
  }

  lemma TtyStepKeeps(s: State, config: Config, tty: string, a: TtyAnswers)
    requires Good(s)
    ensures Keeps(s, TtyStep(s, config, tty, a))
  {
    hide Good, OpenFound, Sends;
    Unseen(s, s);
    if tty !in s.notSerial {
      var failed := a.probe.detected.kind == Unknown;
      ProbedKeeps(s, Serial, tty, failed);
      if !failed {
        OpenFoundKeeps(s.(trace := s.trace + [Probed(Serial, tty, failed)]), config, a.probe);
      }
    }
  }

  lemma {:induction false} TtysStepKeeps(s: State, config: Config, ttys: seq<string>, env: Environment)
    requires Good(s)
    ensures Keeps(s, TtysStep(s, config, ttys, env))
  {
    hide Good, TtyStep, Sends;
    if ttys == [] {
      Unseen(s, s);
    } else {
      var n := |ttys| - 1;
      TtysStepKeeps(s, config, ttys[..n], env);
      var s' := TtysStep(s, config, ttys[..n], env);
      Unseen(s', Tick(s'));
      TtyStepKeeps(Tick(s'), config, ttys[n], env.tty(s'.clock));
    }
  }

  lemma AutoScanKeeps(s: State, config: Config, env: Environment)
    requires Good(s)
    ensures Keeps(s, AutoScan(s, config, env))
  {
    hide Good, Listing, TtysStep, Sends;
    var ttys := env.listing(s.clock);
    Unseen(s, Tick(s));
    ListingKeeps(Tick(s), ttys);
    TtysStepKeeps(Listing(Tick(s), ttys), config, ttys, env);
  }

  lemma RadioStepKeeps(s: State, config: Config, serial: string, a: RadioAnswers)
    requires Good(s)
    ensures Keeps(s, RadioStep(s, config, serial, a))
  {
    hide Good, OpenFound, Sends;
    Unseen(s, s);
    if serial !in s.notRadio {
      ProbedKeeps(s, Radio, serial, !a.accessible);
      if a.accessible {
        OpenFoundKeeps(s.(trace := s.trace + [Probed(Radio, serial, false)]), config,
                       a.probe.(detected := a.probe.detected.(id := serial)));
      }
    }
  }

  lemma {:induction false} RadiosStepKeeps(s: State, config: Config, serials: seq<string>, env: Environment)
    requires Good(s)
    ensures Keeps(s, RadiosStep(s, config, serials, env))
  {
    hide Good, RadioStep, Sends;
    if serials == [] {
      Unseen(s, s);
    } else {
      var n := |serials| - 1;
      RadiosStepKeeps(s, config, serials[..n], env);
      var s' := RadiosStep(s, config, serials[..n], env);
      Unseen(s', Tick(s'));
      RadioStepKeeps(Tick(s'), config, serials[n], env.radio(s'.clock));
    }
  }

  lemma RadioScanKeeps(s: State, config: Config, env: Environment)
    requires Good(s)
    ensures Keeps(s, RadioScan(s, config, env))
  {
    hide Good, RadioListed, RadiosStep, Sends;
    var a := env.radios(s.clock);
    var s' := FindPrograms(Tick(s), a);
    Unseen(s, s');
    ListingKeeps(s', a.serials);
    RadiosStepKeeps(RadioListed(s', a.serials), config, a.serials, env);
  }

  // --- Alarms and the whole round

  lemma AlarmStepKeeps(s: State, position: nat, now: int)
    requires Good(s)
    ensures Keeps(s, AlarmStep(s, position, now))
  {
    hide HistoryOf, Lawful;
    if now - LastAlarm(s.lastAlarm, position) > 60 {
      Record(s, Alarmed(position, now), AlarmStep(s, position, now));
    } else {
      Unseen(s, s);
    }
  }

  lemma {:induction false} AlarmsStepKeeps(s: State, flags: seq<bool>, env: Environment)
    requires Good(s)
    ensures Keeps(s, AlarmsStep(s, flags, env))
  {
    hide Good, AlarmStep, Sends;
    if flags == [] {
      Unseen(s, s);
    } else {
      var n := |flags| - 1;
      AlarmsStepKeeps(s, flags[..n], env);
      var s' := AlarmsStep(s, flags[..n], env);
      Unseen(s', Tick(s'));
      AlarmStepKeeps(Tick(s'), n, env.now(s'.clock));
    }
  }

  lemma ScansKeep(s: State, config: Config, all: bool, env: Environment)
    requires Good(s)
    ensures Keeps(s, Scans(s, config, all, env))
  {
    hide Good, AutoScan, RadioScan, MustScan, Sends;
    Unseen(s, s);
    AutoScanKeeps(s, config, env);
    var s' := if MustScan(config, all, Serial) then AutoScan(s, config, env) else s;
    RadioScanKeeps(s', config, env);
  }

  /** A detection round, in whatever environment, keeps the invariant and sends nothing. */
  lemma DetectKeeps(s: State, config: Config, all: bool, env: Environment)
    requires Good(s)
    ensures Keeps(s, Detect(s, config, all, env))
  {
    hide Good, CheckForDead, DevicesStep, DevicesFlags, Scans, Marked, AlarmsStep, Sends;
    Unseen(s, Tick(s));
    CheckForDeadKeeps(Tick(s), config, env.working(s.clock));
    var s1 := CheckForDead(Tick(s), config, env.working(s.clock));
    DevicesStepKeeps(s1, all, config.supplied, env);
    var s2 := DevicesStep(s1, all, config.supplied, env);
    ScansKeep(s2, config, all, env);
    var s3 := Scans(s2, config, all, env);
    AlarmsStepKeeps(s3, Marked(DevicesFlags(s1, all, config.supplied, env), config.supplied, s3.devices), env);
  }

  // --- Sending

  lemma FoundIsOpen(devices: seq<Device>, alias: string)
    ensures FindBus(devices, alias).Some? ==> FindBus(devices, alias).value in devices
  {
  }

  lemma DeliveryKeeps(s: State, c: SendBusContent, index: nat)
    requires Tracked(s) && SentUpTo(s, index) && index < |s.queued| && s.queued[index] == c
    ensures var s' := s.(trace := s.trace + Delivery(s.devices, c, index)); Tracked(s') && SentUpTo(s', index + 1)
  {
    hide HistoryOf, Lawful, Hex2Bin;
    if Deliverable(s.devices, c) {
      var e := Sent(index, FindBus(s.devices, c.bus).value, c.startsWith, Hex2Bin(c.content).1);
      FoundIsOpen(s.devices, c.bus);
      assert Delivery(s.devices, c, index) == [e];
      Append(s.trace, e);
    } else {
      assert s.trace + Delivery(s.devices, c, index) == s.trace;
    }
  }

  lemma {:induction false} DeliveriesKeep(s: State, queue: seq<SendBusContent>, from: nat)
    requires Tracked(s) && SentUpTo(s, from)
    requires from + |queue| <= |s.queued| && queue == s.queued[from..from + |queue|]
    ensures var s' := s.(trace := s.trace + Deliveries(s.devices, queue, from));
            Tracked(s') && SentUpTo(s', from + |queue|)
  {
    hide Tracked, SentUpTo, Delivery;
    if queue == [] {
      assert s.trace + Deliveries(s.devices, queue, from) == s.trace;
    } else {
      var n := |queue| - 1;
      DeliveriesKeep(s, queue[..n], from);
      var s' := s.(trace := s.trace + Deliveries(s.devices, queue[..n], from));
      assert s.queued[from + n] == queue[n];
      DeliveryKeeps(s', queue[n], from + n);
      assert s.trace + Deliveries(s.devices, queue, from) == s'.trace + Delivery(s.devices, queue[n], from + n);
    }
  }

  /** Content `i` has been handed over. */
  ghost predicate IsSent(trace: seq<Event>, i: nat) {
    exists e | e in trace :: e.Sent? && e.index == i
  }

  lemma SentInEither(a: seq<Event>, b: seq<Event>, i: nat)
    ensures IsSent(a + b, i) <==> IsSent(a, i) || IsSent(b, i)
  {
  }

  lemma DeliveryIff(devices: seq<Device>, c: SendBusContent, index: nat, i: nat)
    ensures IsSent(Delivery(devices, c, index), i) <==> index == i && Deliverable(devices, c)
  {
    hide Deliverable, FindBus, Hex2Bin;
    if Deliverable(devices, c) {
      assert Delivery(devices, c, index)[0] in Delivery(devices, c, index);
    }
  }

  /** Of the contents in the queue, exactly the deliverable ones are handed over. */
  lemma {:induction false} DeliveredIff(devices: seq<Device>, queue: seq<SendBusContent>, from: nat, i: nat)
    ensures IsSent(Deliveries(devices, queue, from), i)
       <==> from <= i < from + |queue| && Deliverable(devices, queue[i - from])
  {
    if queue == [] {
    } else {
      hide Deliverable, Delivery, IsSent;
      var n := |queue| - 1;
      DeliveredIff(devices, queue[..n], from, i);
      DeliveryIff(devices, queue[n], from + n, i);
      SentInEither(Deliveries(devices, queue[..n], from), Delivery(devices, queue[n], from + n), i);
    }
  }

  lemma SendQueueKeeps(s: State)
    requires Good(s)
    ensures Good(SendQueue(s)) && SendQueue(s).queue == []
  {
    hide Deliveries, HistoryOf, Lawful, Hex2Bin;
    assert s.queued[s.handled..s.handled + |s.queue|] == s.queue;
    DeliveriesKeep(s, s.queue, s.handled);
  }

  lemma EnqueueKeeps(s: State, c: SendBusContent)
    requires Good(s)
    ensures Good(Enqueue(s, c))
  {
    hide HistoryOf, Lawful, Hex2Bin;
    assert (s.queued + [c])[s.handled..] == s.queued[s.handled..] + [c];
  }

  lemma RemoveAllKeeps(s: State, s': State)
    requires Good(s) && s' == s.(devices := [], trace := s.trace + [AllRemoved])
    ensures Keeps(s, s')
  {
    hide HistoryOf, Lawful;
    Record(s, AllRemoved, s');
  }

  // --- Whole runs

  /** Every reachable state satisfies the invariant. */
  lemma {:induction false} RunKeeps(ops: seq<Operation>, config: Config, env: Environment)
    ensures Good(Run(ops, config, env))
  {
    if ops == [] {
    } else {
      hide Good, Detect, Enqueue, SendQueue, Run;
      var n := |ops| - 1;
      assert ops[..n + 1] == ops;
      RunNext(ops, config, env, n);
      var s := Run(ops[..n], config, env);
      RunKeeps(ops[..n], config, env);
      match ops[n] {
        case DetectDevices(all) => DetectKeeps(s, config, all, env);
        case QueueContent(c) => EnqueueKeeps(s, c);
        case SendQueued => SendQueueKeeps(s);
        case RemoveAll => RemoveAllKeeps(s, Perform(s, ops[n], config, env));
      }
    }
  }

  /** Over every run in every environment: ignored names are left alone until a listing without them, files are
      read once, alarms are rate limited, contents go out in the order they were queued, each at most once, decoded,
      to their own bus while it is open, and the queue is what has not been handled yet. */
  lemma RunIsSafe(ops: seq<Operation>, config: Config, env: Environment)
    ensures var s := Run(ops, config, env);
            && Patient(s.trace) && ReadOnce(s.trace) && RateLimited(s.trace) && InOrder(s.trace) && OnlyOpen(s.trace)
            && NoticedOnce(s.trace)
            && s.handled <= |s.queued| && s.queue == s.queued[s.handled..]
            && Genuine(s.trace, s.queued, s.handled)
  {
    hide Patient, ReadOnce, RateLimited, InOrder, OnlyOpen, NoticedOnce, Genuine, Lawful, Run, HistoryOf;
    RunKeeps(ops, config, env);
    var trace := Run(ops, config, env).trace;
    LawfulIsPatient(trace);
    LawfulReadsOnce(trace);
    LawfulIsRateLimited(trace);
    LawfulIsInOrder(trace);
    LawfulIsOnlyOpen(trace);
    LawfulNoticesOnce(trace);
  }

  /** Over every run the ignore lists are exactly what the trace says they should be. */
  lemma RunIgnoresIff(ops: seq<Operation>, config: Config, env: Environment, name: string)
    ensures name in Run(ops, config, env).notSerial
       <==> IsStillThere(Run(ops, config, env).trace, Serial, name)
    ensures name in Run(ops, config, env).notRadio
       <==> IsStillThere(Run(ops, config, env).trace, Radio, name)
  {
    hide Run, IsStillThere, HistoryOf, Lawful;
    RunKeeps(ops, config, env);
    IgnoredIff(Run(ops, config, env).trace, Serial, name);
    IgnoredIff(Run(ops, config, env).trace, Radio, name);
  }

  /** Over every run the open devices are those that were opened, in that order, less those that were closed. */
  lemma RunDevices(ops: seq<Operation>, config: Config, env: Environment)
    ensures Run(ops, config, env).devices == HistoryOf(Run(ops, config, env).trace).live
  {
    hide Run, HistoryOf, Lawful;
    RunKeeps(ops, config, env);
  }

  // --- What becomes of each content

  lemma {:induction false} IsSentIff(trace: seq<Event>, i: nat)
    ensures IsSent(trace, i) <==> IsSent(Sends(trace), i)
  {
    if trace != [] {
      var n := |trace| - 1;
      IsSentIff(trace[..n], i);
      assert trace == trace[..n] + [trace[n]];
    }
  }

  lemma SameSends(a: seq<Event>, b: seq<Event>, i: nat)
    requires Sends(a) == Sends(b)
    ensures IsSent(a, i) <==> IsSent(b, i)
  {
    hide Sends, IsSent;
    IsSentIff(a, i);
    IsSentIff(b, i);
  }

  /** Step `k` of a run sent the queue with content `i` in it, and the content was handed over if and only if it could
      be delivered to the devices that were open then. */
  ghost predicate SettledBy(ops: seq<Operation>, config: Config, env: Environment, i: nat, k: nat) {
    && k < |ops| && ops[k] == SendQueued
    && Run(ops[..k], config, env).handled <= i < Run(ops[..k + 1], config, env).handled
    && i < |Run(ops, config, env).queued|
    && (IsSent(Run(ops, config, env).trace, i)
        <==> Deliverable(Run(ops[..k], config, env).devices, Run(ops, config, env).queued[i]))
  }

  /** What one more operation does to the contents. */
  lemma OneMore(s: State, op: Operation, config: Config, env: Environment, i: nat)
    requires Good(s)
    ensures var s' := Perform(s, op, config, env);
            && s.queued <= s'.queued && s.handled <= s'.handled <= |s'.queued|
            && (i < s.handled ==> (IsSent(s'.trace, i) <==> IsSent(s.trace, i)))
            && (s.handled <= i < s'.handled ==>
                  && op == SendQueued
                  && (IsSent(s'.trace, i) <==> Deliverable(s.devices, s'.queued[i])))
  {
    var s' := Perform(s, op, config, env);
    match op
    case DetectDevices(all) =>
      hide Detect, HistoryOf, Lawful, IsSent, Deliverable;
      DetectKeeps(s, config, all, env);
      SameSends(s.trace, s'.trace, i);
    case QueueContent(c) =>
      hide HistoryOf, Lawful, IsSent, Deliverable;
    case SendQueued =>
      hide HistoryOf, Lawful, IsSent, Deliverable, Deliveries;
      DeliveredIff(s.devices, s.queue, s.handled, i);
      SentInEither(s.trace, Deliveries(s.devices, s.queue, s.handled), i);
      NotYetSent(s, i);
    case RemoveAll =>
      hide HistoryOf, Lawful, IsSent, Deliverable;
      RemoveAllKeeps(s, s');
      SameSends(s.trace, s'.trace, i);
  }

  lemma NotYetSent(s: State, i: nat)
    requires Good(s)
    ensures s.handled <= i ==> !IsSent(s.trace, i)
  {
    hide HistoryOf, Lawful, Hex2Bin;
  }

  lemma StaysSettled(ops: seq<Operation>, config: Config, env: Environment, i: nat, n: nat, k: nat)
    requires |ops| == n + 1 && SettledBy(ops[..n], config, env, i, k) && i < Run(ops[..n], config, env).handled
    ensures SettledBy(ops, config, env, i, k)
  {
    hide Good, Perform, Run, IsSent, Deliverable;
    assert ops[..n + 1] == ops;
    RunNext(ops, config, env, n);
    RunKeeps(ops[..n], config, env);
    OneMore(Run(ops[..n], config, env), ops[n], config, env, i);
    assert ops[..n][..k] == ops[..k] && ops[..n][..k + 1] == ops[..k + 1];
  }

  lemma SettledNow(ops: seq<Operation>, config: Config, env: Environment, i: nat, n: nat)
    requires |ops| == n + 1 && Run(ops[..n], config, env).handled <= i < Run(ops, config, env).handled
    ensures SettledBy(ops, config, env, i, n)
  {
    hide Good, Perform, Run, IsSent, Deliverable;
    assert ops[..n + 1] == ops;
    RunNext(ops, config, env, n);
    RunKeeps(ops[..n], config, env);
    OneMore(Run(ops[..n], config, env), ops[n], config, env, i);
  }

  /** Over every run: each content that is no longer waiting was in the queue when a step sent it, and it was handed
      over if and only if it could be delivered to the devices that were open at that step. */
  lemma {:induction false} RunDelivers(ops: seq<Operation>, config: Config, env: Environment, i: nat)
    requires i < Run(ops, config, env).handled
    ensures exists k: nat :: SettledBy(ops, config, env, i, k)
  {
    hide Perform, Run, SettledBy;
    if ops == [] {
      RunNone(ops, config, env);
      assert false;
    } else {
      var n := |ops| - 1;
      if i < Run(ops[..n], config, env).handled {
        RunDelivers(ops[..n], config, env, i);
        var k: nat :| SettledBy(ops[..n], config, env, i, k);
        StaysSettled(ops, config, env, i, n, k);
      } else {
        SettledNow(ops, config, env, i, n);
      }
    }
  }
}
