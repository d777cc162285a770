/**
 * Passes of the main loop of many devices, as `Firmware.Loop` is proved to make them, refine the network model: any
 * interleaving of them is a run of the network.
 */
module Fleet {
  import opened Words
  import opened Dedup
  import opened Network
  import opened Refinement
  import Identity
  import MessageStore
  import Ui
  import D = DeviceLife
  import F = Firmware

  /** A whole device: identity, interface and machine, duplicate cache and message store. */
  datatype Handset = Handset(device: D.Device, ring: Ring, store: MessageStore.Store)

  datatype Party = Party(handsets: seq<Handset>, air: seq<(nat, seq<byte>)>, now: nat)

  /** A pass of a device's loop that reads the frame at `k` if any, a redraw, a lost frame, time passing. */
  datatype Doing =
    | Round(i: nat, inp: F.Input, k: Option<nat>)
    | Redraw(i: nat, peerCount: nat, peerList: Ui.PeerList, convCount: nat)
    | Miss(at: nat)
    | Later(ms: nat)

  /** In normal use, as every idle device is at the end of a pass. */
  ghost predicate InService(h: Handset)
  {
    && Ui.UiOk(h.device.ui) && h.device.sys == D.IdleState && Ui.InUse(h.device.ui.screen)
    && MessageStore.InBounds(h.store)
  }

  /** What `Firmware.Loop` ensures of one pass. */
  ghost predicate Loops(w: World, derive: D.Derive, h: Handset, inp: F.Input, asked: bool, z: F.Traffic, h': Handset)
    requires InService(h)
  {
    var e := F.AfterInput(derive, h.device, inp);
    && Ui.UiOk(e.ui) && MessageStore.InBounds(z.store)
    && MessageStore.InBounds(F.StoreAfterInput(h.store, h.device.ui, inp.evt))
    && F.PassDone(w.aead, e, inp, F.Traffic(h.ring, F.StoreAfterInput(h.store, h.device.ui, inp.evt), []), z)
    && h' == Handset(D.Looped(derive, h.device, inp.evt, inp.now, inp.random, asked), z.ring, z.store)
  }

  /** The frame read is the one at `k` in flight to device `i`, if any. */
  ghost predicate Reading(p: Party, i: nat, inp: F.Input, k: Option<nat>)
  {
    match k
    case None => inp.frame == None
    case Some(j) => j < |p.air| && p.air[j].0 == i && inp.frame == Some(p.air[j].1)
  }

  ghost predicate Does(w: World, derive: D.Derive, a: Party, e: Doing, b: Party)
  {
    match e
    case Round(i, inp, k) =>
      && i < |a.handsets| && InService(a.handsets[i]) && inp.evt != Ui.Panic && inp.now == Millis(a.now)
      && Reading(a, i, inp, k)
      && exists asked: bool, z: F.Traffic, h: Handset ::
           Loops(w, derive, a.handsets[i], inp, asked, z, h) &&
           b == Party(a.handsets[i := h], Taken(a.air, k) + Spread(w, |a.handsets|, i, z.sent), a.now)
    case Redraw(i, n, list, conv) =>
      && i < |a.handsets|
      && var h := a.handsets[i];
         b == a.(handsets := a.handsets[i := h.(device := D.Drawn(h.device, n, list, conv))])
    case Miss(at) => at < |a.air| && b == a.(air := Taken(a.air, Some(at)))
    case Later(ms) => b == a.(now := a.now + ms)
  }

  ghost predicate Becomes(w: World, derive: D.Derive, a: Party, doings: seq<Doing>, b: Party)
  {
    if doings == [] then b == a
    else
      var r, e := doings[..|doings| - 1], doings[|doings| - 1];
      exists m: Party :: Becomes(w, derive, a, r, m) && Does(w, derive, m, e, b)
  }

  ghost predicate AllInService(p: Party) { forall i | 0 <= i < |p.handsets| :: InService(p.handsets[i]) }

  /** The part of a device that messaging sees. */
  function StationOf(h: Handset): Station
  {
    Station(Identity.WithIdLoaded(h.device.ident).id, h.device.key, h.ring, h.store)
  }

  function StationsOf(s: seq<Handset>): (r: seq<Station>)
    ensures |r| == |s| && forall i | 0 <= i < |s| :: r[i] == StationOf(s[i])
  {
    if s == [] then [] else StationsOf(s[..|s| - 1]) + [StationOf(s[|s| - 1])]
  }

  function SystemOf(p: Party): System { System(StationsOf(p.handsets), p.air, p.now) }

  lemma StationsUpdated(s: seq<Handset>, i: nat, h: Handset)
    requires i < |s|
    ensures StationsOf(s[i := h]) == StationsOf(s)[i := StationOf(h)]
  {
  }

  /** A pass leaves a device in service in service, with the same identifier and key. */
  lemma LoopKeepsStation(derive: D.Derive, d: D.Device, inp: F.Input, asked: bool)
    requires Ui.UiOk(d.ui) && d.sys == D.IdleState && Ui.InUse(d.ui.screen) && inp.evt != Ui.Panic
    ensures var e := F.AfterInput(derive, d, inp);
            e.sys == D.IdleState && e.key == d.key && e.ident == d.ident && Ui.UiOk(e.ui)
    ensures var f := D.Looped(derive, d, inp.evt, inp.now, inp.random, asked);
            && Ui.UiOk(f.ui) && f.sys == D.IdleState && Ui.InUse(f.ui.screen)
            && f.key == d.key && Identity.WithIdLoaded(f.ident).id == Identity.WithIdLoaded(d.ident).id
  {
    F.AfterInputOk(derive, d, inp);
    if inp.evt != Ui.NoEvent {
      Ui.UseStaysInUse(d.ui, inp.evt);
    }
  }

  lemma RedrawKeepsStation(h: Handset, peerCount: nat, peerList: Ui.PeerList, convCount: nat)
    requires InService(h)
    ensures var g := h.(device := D.Drawn(h.device, peerCount, peerList, convCount));
            InService(g) && StationOf(g) == StationOf(h)
  {
    D.DrawnUiOk(h.device, peerCount, peerList, convCount);
  }

  // ---------- From loops to passes ----------

  lemma LeadsNext(w: World, a: System, x: seq<Event>, m: System, e: Event, b: System)
    requires Leads(w, a, x, m) && Happens(w, m, e, b)
    ensures Leads(w, a, x + [e], b)
  {
    var y := x + [e];
    assert y[..|y| - 1] == x && y[|y| - 1] == e;
    assert Leads(w, a, x, m) && Happens(w, m, e, b);
  }

  lemma LeadsOne(w: World, a: System, e: Event, b: System)
    requires Happens(w, a, e, b)
    ensures Leads(w, a, [e], b)
  {
    var none: seq<Event> := [];
    LeadsNext(w, a, none, a, e, b);
    assert none + [e] == [e];
  }

  lemma LeadsTwo(w: World, a: System, e1: Event, m: System, e2: Event, b: System) returns (evs: seq<Event>)
    requires Happens(w, a, e1, m) && Happens(w, m, e2, b)
    ensures Leads(w, a, evs, b) && evs == [e1, e2]
  {
    LeadsOne(w, a, e1, m);
    LeadsNext(w, a, [e1], m, e2, b);
    evs := [e1] + [e2];
  }

  /** What a pass of the loop is for messaging. */
  lemma LoopsIdle(w: World, derive: D.Derive, h: Handset, inp: F.Input, asked: bool, z: F.Traffic, h': Handset)
    requires InService(h) && Loops(w, derive, h, inp, asked, z, h') && inp.evt != Ui.Panic
    ensures var d, v := F.AfterInput(derive, h.device, inp), StationOf(h);
            var store := F.StoreAfterInput(h.store, h.device.ui, inp.evt);
            && Ui.UiOk(d.ui) && MessageStore.InBounds(store)
            && F.IdleDone(w.aead, v.key, v.id, inp, d.ui.composeDest, F.ToSend(d.ui), F.Traffic(h.ring, store, []), z)
            && StationOf(h') == v.(ring := z.ring, store := z.store) && InService(h')
  {
    LoopKeepsStation(derive, h.device, inp, asked);
  }

  lemma PassHappens(
      w: World, m: System, i: nat, inp: F.Input, k: Option<nat>, dest: u32, text: seq<byte>, z: F.Traffic, b: System)
    requires i < |m.stations| && MessageStore.InBounds(m.stations[i].store) && inp.now == Millis(m.now)
    requires match k
             case None => inp.frame == None
             case Some(j) => j < |m.air| && m.air[j].0 == i && inp.frame == Some(m.air[j].1)
    requires var v := m.stations[i];
             && F.IdleDone(w.aead, v.key, v.id, inp, dest, text, F.Traffic(v.ring, v.store, []), z)
             && b == System(m.stations[i := v.(ring := z.ring, store := z.store)],
                            Taken(m.air, k) + Spread(w, |m.stations|, i, z.sent), m.now)
    ensures Happens(w, m, Pass(i, inp, k, dest, text), b)
  {
  }

  /** A pass of the loop is input to the store and then a messaging pass. */
  lemma RoundLeads(w: World, derive: D.Derive, a: Party, e: Doing, b: Party) returns (evs: seq<Event>)
    requires e.Round? && Does(w, derive, a, e, b)
    ensures Leads(w, SystemOf(a), evs, SystemOf(b))
  {
    var asked, z, h := RoundParts(w, derive, a, e, b);
    LoopsIdle(w, derive, a.handsets[e.i], e.inp, asked, z, h);
    var d := F.AfterInput(derive, a.handsets[e.i].device, e.inp);
    var store := F.StoreAfterInput(a.handsets[e.i].store, a.handsets[e.i].device.ui, e.inp.evt);
    evs := PassLeads(w, a, e.i, e.inp, e.k, d.ui.composeDest, F.ToSend(d.ui), store, z, h, b);
  }

  lemma RoundParts(w: World, derive: D.Derive, a: Party, e: Doing, b: Party)
    returns (asked: bool, z: F.Traffic, h: Handset)
    requires e.Round? && Does(w, derive, a, e, b)
    ensures e.i < |a.handsets| && InService(a.handsets[e.i]) && e.inp.evt != Ui.Panic && e.inp.now == Millis(a.now)
    ensures Reading(a, e.i, e.inp, e.k) && Loops(w, derive, a.handsets[e.i], e.inp, asked, z, h)
    ensures b == Party(a.handsets[e.i := h], Taken(a.air, e.k) + Spread(w, |a.handsets|, e.i, z.sent), a.now)
  {
    asked, z, h :|
      Loops(w, derive, a.handsets[e.i], e.inp, asked, z, h) &&
      b == Party(a.handsets[e.i := h], Taken(a.air, e.k) + Spread(w, |a.handsets|, e.i, z.sent), a.now);
  }

  lemma PassLeads(
      w: World, a: Party, i: nat, inp: F.Input, k: Option<nat>, dest: u32, text: seq<byte>, store: MessageStore.Store,
      z: F.Traffic, h: Handset, b: Party)
    returns (evs: seq<Event>)
    requires i < |a.handsets| && MessageStore.InBounds(store) && inp.now == Millis(a.now) && Reading(a, i, inp, k)
    requires var v := StationOf(a.handsets[i]);
             && F.IdleDone(w.aead, v.key, v.id, inp, dest, text, F.Traffic(v.ring, store, []), z)
             && StationOf(h) == v.(ring := z.ring, store := z.store)
    requires b == Party(a.handsets[i := h], Taken(a.air, k) + Spread(w, |a.handsets|, i, z.sent), a.now)
    ensures evs == [Use(i, store), Pass(i, inp, k, dest, text)] && Leads(w, SystemOf(a), evs, SystemOf(b))
  {
    var s, v := SystemOf(a), StationOf(a.handsets[i]);
    var m := s.(stations := s.stations[i := v.(store := store)]);
    StationsUpdated(a.handsets, i, h);
    assert s.stations[i := StationOf(h)] == m.stations[i := m.stations[i].(ring := z.ring, store := z.store)];
    PassHappens(w, m, i, inp, k, dest, text, z, SystemOf(b));
    evs := LeadsTwo(w, s, Use(i, store), m, Pass(i, inp, k, dest, text), SystemOf(b));
  }

  lemma RedrawLeads(w: World, derive: D.Derive, a: Party, e: Doing, b: Party)
    requires e.Redraw? && AllInService(a) && Does(w, derive, a, e, b)
    ensures SystemOf(b) == SystemOf(a)
  {
    RedrawKeepsStation(a.handsets[e.i], e.peerCount, e.peerList, e.convCount);
    StationsUpdated(a.handsets, e.i, b.handsets[e.i]);
    assert StationsOf(b.handsets) == StationsOf(a.handsets);
  }

  lemma DoesLeads(w: World, derive: D.Derive, a: Party, e: Doing, b: Party) returns (evs: seq<Event>)
    requires AllInService(a) && Does(w, derive, a, e, b)
    ensures Leads(w, SystemOf(a), evs, SystemOf(b))
  {
    match e
    case Round(_, _, _) => evs := RoundLeads(w, derive, a, e, b);
    case Redraw(_, _, _, _) =>
      RedrawLeads(w, derive, a, e, b);
      evs := [];
    case Miss(at) =>
      LeadsOne(w, SystemOf(a), Drop(at), SystemOf(b));
      evs := [Drop(at)];
    case Later(ms) =>
      LeadsOne(w, SystemOf(a), Elapse(ms), SystemOf(b));
      evs := [Elapse(ms)];
  }

  lemma StaysInService(w: World, derive: D.Derive, a: Party, e: Doing, b: Party)
    requires AllInService(a) && Does(w, derive, a, e, b)
    ensures AllInService(b)
  {
    match e
    case Round(_, _, _) =>
      var asked, z, h := RoundParts(w, derive, a, e, b);
      LoopsIdle(w, derive, a.handsets[e.i], e.inp, asked, z, h);
    case Redraw(i, n, list, conv) => RedrawKeepsStation(a.handsets[i], n, list, conv);
    case _ =>
  }

  /**
   * Any interleaving of passes of the main loop of any number of devices in service, with any button events but the
   * panic hold, of redraws, of losses and of time is a run of the network, which ends with every device's cache and
   * exactly its frames in flight; the devices stay in service.
   */
  lemma {:induction false} LoopsAreRun(w: World, derive: D.Derive, a: Party, net: Net, doings: seq<Doing>, b: Party)
    returns (run: seq<Step>)
    requires AllInService(a) && Matches(SystemOf(a), net) && Becomes(w, derive, a, doings, b)
    ensures IsRun(w, net, run) && Matches(SystemOf(b), After(w, net, run)) && AllInService(b)
  {
    run := [];
    if doings != [] {
      var r, e := doings[..|doings| - 1], doings[|doings| - 1];
      var m: Party :| Becomes(w, derive, a, r, m) && Does(w, derive, m, e, b);
      run := LoopsAreRun(w, derive, a, net, r, m);
      StaysInService(w, derive, m, e, b);
      var evs := DoesLeads(w, derive, m, e, b);
      var tail := SystemIsRun(w, SystemOf(m), After(w, net, run), evs, SystemOf(b));
      RunConcat(w, net, run, tail);
      run := run + tail;
    }
  }
}
