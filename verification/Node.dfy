/** The Sparkplug edge node of app/engine/sparkplug_node.py (section 5 of the Eclipse
    Sparkplug 3.0 specification, "Operational Behavior"): births with the full state, then
    data messages with the changed points only. A Modbus unit number stands for its device
    id, and the publisher is the list of messages since the last NBIRTH. */
module Node {
  import opened Common
  import opened Sparkplug

  type Name = Bytes

  /** Python's == on values, which is not identity: it takes 1 for True, 0.0 for -0.0, and
      NaN for different from itself. Nothing is assumed of it. */
  type Equality = (Value, Value) -> bool

  datatype Point = Point(name: Name, unit: int)

  datatype Device = Device(unit: int, names: seq<Name>)

  datatype Report = Report(name: Name, value: Option<Value>)

  datatype Message =
    | NBirth(sequence: nat)
    | DBirth(sequence: nat, unit: int, metrics: seq<Report>)
    | DData(sequence: nat, unit: int, metrics: seq<Report>)

  /** values and seq, and as history the messages since the last NBIRTH, that one first. */
  datatype State = State(values: map<Name, Value>, sequence: nat, since: seq<Message>)

  function NextSeq(n: nat): nat { (n + 1) % 256 }

  function Lookup(values: map<Name, Value>, n: Name): Option<Value>
  {
    if n in values then Some(values[n]) else None
  }

  function Reports(names: seq<Name>, values: map<Name, Value>): (r: seq<Report>)
    ensures |r| == |names|
    ensures forall i :: 0 <= i < |names| ==> r[i] == Report(names[i], Lookup(values, names[i]))
  {
    seq(|names|, i requires 0 <= i < |names| => Report(names[i], Lookup(values, names[i])))
  }

  // ---- the devices of a node ----

  /** devices.setdefault(device_id(p.unit), []).append(p.name) */
  function AddPoint(devices: seq<Device>, p: Point): seq<Device>
  {
    if devices == [] then [Device(p.unit, [p.name])]
    else if devices[0].unit == p.unit then [devices[0].(names := devices[0].names + [p.name])] + devices[1..]
    else [devices[0]] + AddPoint(devices[1..], p)
  }

  function Devices(points: seq<Point>): seq<Device>
  {
    if points == [] then [] else AddPoint(Devices(points[..|points| - 1]), points[|points| - 1])
  }

  // ---- births and updates ----

  function BirthDevices(s: State, devices: seq<Device>): State
    decreases |devices|
  {
    if devices == [] then s
    else
      var q := NextSeq(s.sequence);
      var msg := DBirth(q, devices[0].unit, Reports(devices[0].names, s.values));
      BirthDevices(s.(sequence := q, since := s.since + [msg]), devices[1..])
  }

  function Birth(s: State, devices: seq<Device>): State
  {
    BirthDevices(s.(sequence := 0, since := [NBirth(0)]), devices)
  }

  /** The points whose value differs from the last one reported. */
  predicate Changed(s: State, points: set<Name>, values: map<Name, Value>, same: Equality, n: Name)
  {
    n in values && n in points && (n !in s.values || !same(s.values[n], values[n]))
  }

  function Kept(names: seq<Name>, changed: set<Name>): seq<Name>
  {
    if names == [] then [] else (if names[0] in changed then [names[0]] else []) + Kept(names[1..], changed)
  }

  function UpdateDevices(s: State, devices: seq<Device>, changed: set<Name>): State
    decreases |devices|
  {
    if devices == [] then s
    else
      var names := Kept(devices[0].names, changed);
      if names == [] then UpdateDevices(s, devices[1..], changed)
      else
        var q := NextSeq(s.sequence);
        var msg := DData(q, devices[0].unit, Reports(names, s.values));
        UpdateDevices(s.(sequence := q, since := s.since + [msg]), devices[1..], changed)
  }

  function ChangedSet(s: State, points: set<Name>, values: map<Name, Value>, same: Equality): set<Name>
  {
    set n | n in values && Changed(s, points, values, same, n)
  }

  function Merge(old': map<Name, Value>, changed: set<Name>, values: map<Name, Value>): map<Name, Value>
    requires changed <= values.Keys
  {
    map n | n in old'.Keys + changed :: if n in changed then values[n] else old'[n]
  }

  function Update(s: State, devices: seq<Device>, points: set<Name>, values: map<Name, Value>, same: Equality): State
  {
    var changed := ChangedSet(s, points, values, same);
    UpdateDevices(s.(values := Merge(s.values, changed, values)), devices, changed)
  }

  class SparkplugNode {
    var points: set<Name>
    var devices: seq<Device>
    var values: map<Name, Value>
    var sequence: nat
    var since: seq<Message>
    ghost const config: seq<Point>
    const same: Equality

    ghost predicate Valid()
      reads this
    {
      devices == Devices(config) && points == Names(config)
    }

    ghost function View(): State
      reads this
    {
      State(values, sequence, since)
    }

    constructor (config: seq<Point>, same: Equality)
      ensures Valid() && this.config == config && this.same == same
      ensures View() == State(map[], 0, [])
    {
      points, devices, values, sequence, since := Names(config), [], map[], 0, [];
      this.config, this.same := config, same;
      new;
      for i := 0 to |config|
        invariant devices == Devices(config[..i]) && View() == State(map[], 0, [])
        invariant points == Names(config)
      {
        assert config[..i + 1][..i] == config[..i];
        devices := AddPoint(devices, config[i]);
      }
      assert config[..|config|] == config;
    }

    method PublishBirth()
      requires Valid()
      modifies this`sequence, this`since
      ensures Valid() && View() == Birth(old(View()), devices)
      ensures InSync(View(), config) && values == old(values)
    {
      hide InSync;
      BirthSyncs(View(), config);
      sequence := 0;
      since := [NBirth(0)];
      assert devices[0..] == devices;
      for i := 0 to |devices|
        invariant BirthDevices(View(), devices[i..]) == Birth(old(View()), devices)
      {
        DropTwice(devices, i, 1);
        sequence := NextSeq(sequence);
        since := since + [DBirth(sequence, devices[i].unit, Reports(devices[i].names, values))];
      }
    }

    method PublishUpdate(polled: map<Name, Value>)
      requires Valid()
      modifies this`values, this`sequence, this`since
      ensures Valid() && View() == Update(old(View()), devices, points, polled, same)
      ensures old(InSync(View(), config)) ==> InSync(View(), config)
      ensures Stored(old(values), points, polled, same, values)
    {
      hide InSync, UpdateDevices, Stored;
      UpdateStores(View(), devices, points, polled, same);
      if InSync(View(), config) {
        UpdateSyncs(View(), config, polled, same);
      }
      var changed := set n | n in polled && n in points && (n !in values || !same(values[n], polled[n]));
      assert changed == ChangedSet(View(), points, polled, same);
      values := Merge(values, changed, polled);
      PublishChanged(changed);
    }

    /** The loop of update: a message per device with something to report. */
    method PublishChanged(changed: set<Name>)
      modifies this`sequence, this`since
      ensures View() == UpdateDevices(old(View()), devices, changed)
    {
      assert devices[0..] == devices;
      for i := 0 to |devices|
        invariant UpdateDevices(View(), devices[i..], changed) == UpdateDevices(old(View()), devices, changed)
      {
        DropTwice(devices, i, 1);
        var names := Kept(devices[i].names, changed);
        if names != [] {
          sequence := NextSeq(sequence);
          since := since + [DData(sequence, devices[i].unit, Reports(names, values))];
        }
      }
    }
  }

  // ---- a host that follows the messages ----

  type View = map<(int, Name), Option<Value>>

  function SetAll(h: View, unit: int, metrics: seq<Report>): View
    decreases |metrics|
  {
    if metrics == [] then h else SetAll(h[(unit, metrics[0].name) := metrics[0].value], unit, metrics[1..])
  }

  /** An NBIRTH makes everything known before stale. */
  function Apply(h: View, m: Message): View
  {
    match m
    case NBirth(_) => map[]
    case DBirth(_, unit, metrics) => SetAll(h, unit, metrics)
    case DData(_, unit, metrics) => SetAll(h, unit, metrics)
  }

  function Replay(msgs: seq<Message>): View
  {
    if msgs == [] then map[] else Apply(Replay(msgs[..|msgs| - 1]), msgs[|msgs| - 1])
  }

  lemma ReplaySnoc(msgs: seq<Message>, m: Message)
    ensures Replay(msgs + [m]) == Apply(Replay(msgs), m)
  {
    assert (msgs + [m])[..|msgs|] == msgs;
  }

  /** The k-th message after the NBIRTH carries sequence number k mod 256. */
  predicate Numbered(s: State)
  {
    && s.since != [] && s.since[0].NBirth? && s.sequence == (|s.since| - 1) % 256
    && forall k :: 0 <= k < |s.since| ==> s.since[k].sequence == k % 256
  }

  lemma NextOf(k: nat)
    ensures NextSeq(k % 256) == (k + 1) % 256
  {
  }

  lemma NumberedNext(s: State, m: Message, values: map<Name, Value>)
    requires Numbered(s) && m.sequence == NextSeq(s.sequence)
    ensures Numbered(State(values, m.sequence, s.since + [m]))
  {
    NextOf(|s.since| - 1);
  }

  /** The host holds the last value of point (unit, n). */
  predicate Shows(h: View, unit: int, n: Name, values: map<Name, Value>)
  {
    (unit, n) in h && h[(unit, n)] == Lookup(values, n)
  }

  /** A batch of reports sets exactly its own points, to the values they report. */
  lemma {:induction false} SetAllReports(
      h: View, unit: int, names: seq<Name>, values: map<Name, Value>, unit': int, n: Name)
    ensures unit' == unit && n in names ==> Shows(SetAll(h, unit, Reports(names, values)), unit', n, values)
    ensures !(unit' == unit && n in names) ==>
              ((unit', n) in SetAll(h, unit, Reports(names, values)) <==> (unit', n) in h)
              && ((unit', n) in h ==> SetAll(h, unit, Reports(names, values))[(unit', n)] == h[(unit', n)])
    decreases |names|
  {
    if names != [] {
      var h1 := h[(unit, names[0]) := Lookup(values, names[0])];
      assert Reports(names, values)[1..] == Reports(names[1..], values);
      SetAllReports(h1, unit, names[1..], values, unit', n);
    }
  }

  predicate Holds(d: Device, unit: int, n: Name) { d.unit == unit && n in d.names }

  predicate Covers(devices: seq<Device>, unit: int, n: Name)
  {
    exists d :: d in devices && Holds(d, unit, n)
  }

  /** After the births of some devices the host shows their points; others it shows as
      before. */
  lemma {:induction false} BirthShows(s: State, devices: seq<Device>, unit: int, n: Name)
    requires Numbered(s)
    ensures var s' := BirthDevices(s, devices);
            && s'.values == s.values && Numbered(s')
            && (Covers(devices, unit, n) || Shows(Replay(s.since), unit, n, s.values) ==>
                  Shows(Replay(s'.since), unit, n, s.values))
    decreases |devices|
  {
    hide Numbered, Replay;
    if devices != [] {
      var d, q := devices[0], NextSeq(s.sequence);
      var m := DBirth(q, d.unit, Reports(d.names, s.values));
      var s1 := s.(sequence := q, since := s.since + [m]);
      NumberedNext(s, m, s.values);
      ReplaySnoc(s.since, m);
      SetAllReports(Replay(s.since), d.unit, d.names, s.values, unit, n);
      BirthShows(s1, devices[1..], unit, n);
      if Covers(devices, unit, n) && !Holds(d, unit, n) {
        var e :| e in devices && Holds(e, unit, n);
        assert e in devices[1..];
      }
    }
  }

  lemma {:induction false} KeptIff(names: seq<Name>, changed: set<Name>, n: Name)
    ensures n in Kept(names, changed) <==> n in names && n in changed
  {
    if names != [] {
      KeptIff(names[1..], changed, n);
    }
  }

  /** The data messages bring a changed point up to date and leave the rest alone. */
  lemma {:induction false} UpdateShows(s: State, devices: seq<Device>, changed: set<Name>, unit: int, n: Name)
    requires Numbered(s)
    ensures var s' := UpdateDevices(s, devices, changed);
            && s'.values == s.values && Numbered(s')
            && ((Covers(devices, unit, n) && n in changed) || Shows(Replay(s.since), unit, n, s.values) ==>
                  Shows(Replay(s'.since), unit, n, s.values))
    decreases |devices|
  {
    hide Numbered, Replay, Kept;
    if devices != [] {
      var d := devices[0];
      var names := Kept(d.names, changed);
      KeptIff(d.names, changed, n);
      if Covers(devices, unit, n) && !Holds(d, unit, n) {
        var e :| e in devices && Holds(e, unit, n);
        assert e in devices[1..];
      }
      if names == [] {
        UpdateShows(s, devices[1..], changed, unit, n);
      } else {
        var q := NextSeq(s.sequence);
        var m := DData(q, d.unit, Reports(names, s.values));
        NumberedNext(s, m, s.values);
        ReplaySnoc(s.since, m);
        SetAllReports(Replay(s.since), d.unit, names, s.values, unit, n);
        UpdateShows(s.(sequence := q, since := s.since + [m]), devices[1..], changed, unit, n);
      }
    }
  }

  lemma {:induction false} OnlyChangesSent(s: State, devices: seq<Device>, changed: set<Name>)
    ensures var s' := UpdateDevices(s, devices, changed);
            && |s.since| <= |s'.since| && s'.since[..|s.since|] == s.since
            && forall k :: |s.since| <= k < |s'.since| ==> OnlyChanges(s'.since[k], changed)
    decreases |devices|
  {
    hide Kept;
    if devices != [] {
      var names := Kept(devices[0].names, changed);
      if names == [] {
        OnlyChangesSent(s, devices[1..], changed);
      } else {
        var q := NextSeq(s.sequence);
        var m := DData(q, devices[0].unit, Reports(names, s.values));
        var s1 := s.(sequence := q, since := s.since + [m]);
        forall i | 0 <= i < |names| ensures names[i] in changed {
          KeptIff(devices[0].names, changed, names[i]);
        }
        assert OnlyChanges(m, changed);
        OnlyChangesSent(s1, devices[1..], changed);
        var s' := UpdateDevices(s1, devices[1..], changed);
        assert s'.since[..|s.since|] == s'.since[..|s1.since|][..|s.since|];
        assert s'.since[|s.since|] == s'.since[..|s1.since|][|s.since|];
      }
    }
  }

  /** Report by exception: an update adds data messages only, none of them empty, and they
      report nothing but polled points whose value is new or not the same as before. */
  lemma UpdateReportsChanges(
      s: State, devices: seq<Device>, points: set<Name>, values: map<Name, Value>, same: Equality)
    ensures var s' := Update(s, devices, points, values, same);
            && |s.since| <= |s'.since| && s'.since[..|s.since|] == s.since
            && forall k, i :: |s.since| <= k < |s'.since| && s'.since[k].DData? && 0 <= i < |s'.since[k].metrics| ==>
                 Changed(s, points, values, same, s'.since[k].metrics[i].name)
    ensures var s' := Update(s, devices, points, values, same);
            forall k :: |s.since| <= k < |s'.since| ==> s'.since[k].DData? && s'.since[k].metrics != []
  {
    hide UpdateDevices, Changed;
    var changed := ChangedSet(s, points, values, same);
    OnlyChangesSent(s.(values := Merge(s.values, changed, values)), devices, changed);
    var s' := Update(s, devices, points, values, same);
    forall k | |s.since| <= k < |s'.since| ensures OnlyChanges(s'.since[k], changed) {
    }
  }

  predicate OnlyChanges(m: Message, changed: set<Name>)
  {
    m.DData? && m.metrics != [] && forall i :: 0 <= i < |m.metrics| ==> m.metrics[i].name in changed
  }

  // ---- every point is in its device ----

  lemma {:induction false} AddPointCovers(devices: seq<Device>, p: Point, unit: int, n: Name)
    requires Covers(devices, unit, n) || p == Point(n, unit)
    ensures Covers(AddPoint(devices, p), unit, n)
    decreases |devices|
  {
    if devices == [] {
      assert Holds(AddPoint(devices, p)[0], unit, n);
    } else {
      var r := AddPoint(devices, p);
      if Holds(r[0], unit, n) {
        assert Covers(r, unit, n);
      } else {
        if Covers(devices, unit, n) {
          var e :| e in devices && Holds(e, unit, n);
          assert e in devices[1..];
        }
        if devices[0].unit == p.unit {
          assert r[1..] == devices[1..];
          var e :| e in devices[1..] && Holds(e, unit, n);
          assert e in r;
        } else {
          AddPointCovers(devices[1..], p, unit, n);
          var e :| e in AddPoint(devices[1..], p) && Holds(e, unit, n);
          assert e in r;
        }
      }
    }
  }

  lemma {:induction false} DevicesCover(points: seq<Point>, p: Point)
    requires p in points
    ensures Covers(Devices(points), p.unit, p.name)
  {
    var front, last := points[..|points| - 1], points[|points| - 1];
    if p != last {
      assert p in front;
      DevicesCover(front, p);
    }
    AddPointCovers(Devices(front), last, p.unit, p.name);
  }

  /** The points of one unit, in order. */
  function OfUnit(points: seq<Point>, unit: int): seq<Name>
  {
    if points == [] then []
    else
      var last := points[|points| - 1];
      OfUnit(points[..|points| - 1], unit) + if last.unit == unit then [last.name] else []
  }

  predicate HasUnit(devices: seq<Device>, unit: int)
  {
    devices != [] && (devices[0].unit == unit || HasUnit(devices[1..], unit))
  }

  predicate DistinctUnits(devices: seq<Device>)
  {
    devices == [] || (!HasUnit(devices[1..], devices[0].unit) && DistinctUnits(devices[1..]))
  }

  function NamesOf(devices: seq<Device>, unit: int): seq<Name>
  {
    if devices == [] then [] else if devices[0].unit == unit then devices[0].names else NamesOf(devices[1..], unit)
  }

  lemma {:induction false} AddPointUnits(devices: seq<Device>, p: Point, unit: int)
    ensures HasUnit(AddPoint(devices, p), unit) <==> HasUnit(devices, unit) || p.unit == unit
    decreases |devices|
  {
    if devices == [] {
      assert AddPoint(devices, p)[1..] == [];
    } else if devices[0].unit == p.unit {
      assert AddPoint(devices, p)[1..] == devices[1..];
    } else {
      AddPointUnits(devices[1..], p, unit);
      assert AddPoint(devices, p)[1..] == AddPoint(devices[1..], p);
    }
  }

  lemma {:induction false} AddPointExact(devices: seq<Device>, p: Point, unit: int)
    requires DistinctUnits(devices)
    ensures var r := AddPoint(devices, p);
            && DistinctUnits(r)
            && NamesOf(r, unit) == NamesOf(devices, unit) + if p.unit == unit then [p.name] else []
    decreases |devices|
  {
    hide HasUnit;
    var r := AddPoint(devices, p);
    var old' := NamesOf(devices, unit);
    assert old' + [] == old';
    if devices == [] {
      assert r[1..] == [];
      NoUnits(p.unit);
      assert [] + [p.name] == [p.name];
    } else if devices[0].unit == p.unit {
      assert r[1..] == devices[1..];
    } else {
      assert r[1..] == AddPoint(devices[1..], p);
      AddPointExact(devices[1..], p, unit);
      AddPointUnits(devices[1..], p, devices[0].unit);
    }
  }

  lemma NoUnits(unit: int)
    ensures !HasUnit([], unit)
  {
  }

  /** There is one device for each unit, and it holds exactly the points of its unit. */
  lemma {:induction false} DevicesExact(points: seq<Point>, unit: int)
    ensures DistinctUnits(Devices(points)) && NamesOf(Devices(points), unit) == OfUnit(points, unit)
  {
    if points != [] {
      var front := points[..|points| - 1];
      DevicesExact(front, unit);
      AddPointExact(Devices(front), points[|points| - 1], unit);
    }
  }

  // ---- whole runs ----

  datatype Event = Rebirth | Poll(values: map<Name, Value>)

  function Names(points: seq<Point>): set<Name> { set p | p in points :: p.name }

  function Step(s: State, points: seq<Point>, e: Event, same: Equality): State
  {
    match e
    case Rebirth => Birth(s, Devices(points))
    case Poll(v) => Update(s, Devices(points), Names(points), v, same)
  }

  function Run(s: State, points: seq<Point>, es: seq<Event>, same: Equality): State
    decreases |es|
  {
    if es == [] then s else Run(Step(s, points, es[0], same), points, es[1..], same)
  }

  /** A host that replays the messages since the NBIRTH holds the node's value of every
      point, and null where none was ever read. */
  ghost predicate InSync(s: State, points: seq<Point>)
  {
    && Numbered(s)
    && forall p :: p in points ==> Shows(Replay(s.since), p.unit, p.name, s.values)
  }

  lemma BirthSyncs(s: State, points: seq<Point>)
    ensures InSync(Birth(s, Devices(points)), points)
  {
    hide Replay, BirthDevices, Devices, Shows, Covers;
    var s1 := s.(sequence := 0, since := [NBirth(0)]);
    assert Numbered(s1);
    BirthShows(s1, Devices(points), 0, []);
    forall p | p in points ensures Shows(Replay(Birth(s, Devices(points)).since), p.unit, p.name, s.values) {
      DevicesCover(points, p);
      BirthShows(s1, Devices(points), p.unit, p.name);
    }
  }

  lemma UpdateSyncs(s: State, points: seq<Point>, values: map<Name, Value>, same: Equality)
    requires InSync(s, points)
    ensures InSync(Update(s, Devices(points), Names(points), values, same), points)
  {
    hide Replay, UpdateDevices, Devices, Covers, Numbered;
    var changed := ChangedSet(s, Names(points), values, same);
    var s1 := s.(values := Merge(s.values, changed, values));
    NumberedValues(s, s1.values);
    var s' := UpdateDevices(s1, Devices(points), changed);
    UpdateShows(s1, Devices(points), changed, 0, []);
    forall p | p in points ensures Shows(Replay(s'.since), p.unit, p.name, s1.values) {
      DevicesCover(points, p);
      UpdateShows(s1, Devices(points), changed, p.unit, p.name);
      assert Shows(Replay(s.since), p.unit, p.name, s.values);
      if p.name !in changed {
        assert Lookup(s1.values, p.name) == Lookup(s.values, p.name);
      }
    }
  }

  lemma NumberedValues(s: State, values: map<Name, Value>)
    requires Numbered(s)
    ensures Numbered(s.(values := values))
  {
  }

  /** From its first birth on, whatever is polled and however often it is reborn, the node
      and a host stay in step. */
  lemma {:induction false} AlwaysInSync(s: State, points: seq<Point>, es: seq<Event>, same: Equality)
    requires InSync(s, points)
    ensures InSync(Run(s, points, es, same), points)
    decreases |es|
  {
    hide InSync, Birth, Update, Devices;
    if es != [] {
      match es[0] {
        case Rebirth => BirthSyncs(s, points);
        case Poll(v) => UpdateSyncs(s, points, v, same);
      }
      AlwaysInSync(Step(s, points, es[0], same), points, es[1..], same);
    }
  }

  // ---- what is stored and sent, point by point ----

  /** A polled value of a point is new: never read before, or not the same as before. */
  predicate IsNew(before: map<Name, Value>, points: set<Name>, polled: map<Name, Value>, same: Equality, n: Name)
  {
    n in polled && n in points && (n in before ==> !same(before[n], polled[n]))
  }

  /** After an update: each new value is held, everything else is as before. */
  ghost predicate Stored(
      before: map<Name, Value>, points: set<Name>, polled: map<Name, Value>, same: Equality, after: map<Name, Value>)
  {
    forall n ::
      Lookup(after, n) == if IsNew(before, points, polled, same, n) then Some(polled[n]) else Lookup(before, n)
  }

  lemma ChangesKeepValues(s: State, devices: seq<Device>, changed: set<Name>)
    ensures UpdateDevices(s, devices, changed).values == s.values
    decreases |devices|
  {
    if devices != [] {
      var names := Kept(devices[0].names, changed);
      if names == [] {
        ChangesKeepValues(s, devices[1..], changed);
      } else {
        var q := NextSeq(s.sequence);
        var m := DData(q, devices[0].unit, Reports(names, s.values));
        ChangesKeepValues(s.(sequence := q, since := s.since + [m]), devices[1..], changed);
      }
    }
  }

  lemma UpdateStores(s: State, devices: seq<Device>, points: set<Name>, polled: map<Name, Value>, same: Equality)
    ensures Stored(s.values, points, polled, same, Update(s, devices, points, polled, same).values)
  {
    hide UpdateDevices;
    var changed := ChangedSet(s, points, polled, same);
    ChangesKeepValues(s.(values := Merge(s.values, changed, polled)), devices, changed);
  }

  /** The points of a device that have a new value, in order. */
  function NewNames(names: seq<Name>, fresh': set<Name>): seq<Name>
  {
    if names == [] then []
    else
      var rest := NewNames(names[..|names| - 1], fresh');
      if names[|names| - 1] in fresh' then rest + [names[|names| - 1]] else rest
  }

  lemma {:induction false} KeptAppend(a: seq<Name>, b: seq<Name>, changed: set<Name>)
    ensures Kept(a + b, changed) == Kept(a, changed) + Kept(b, changed)
  {
    if a == [] {
      assert a + b == b;
    } else {
      KeptAppend(a[1..], b, changed);
      DropOfAppend(a, b, 1);
      AppendAssociates(if a[0] in changed then [a[0]] else [], Kept(a[1..], changed), Kept(b, changed));
    }
  }

  lemma {:induction false} KeptIsNew(names: seq<Name>, changed: set<Name>)
    ensures Kept(names, changed) == NewNames(names, changed)
  {
    if names != [] {
      var front, last := names[..|names| - 1], names[|names| - 1];
      KeptIsNew(front, changed);
      KeptAppend(front, [last], changed);
      assert front + [last] == names;
      assert Kept([last][1..], changed) == [];
    }
  }

  /** One message for each device that has a new value, in order, with those values. */
  function Updates(devices: seq<Device>, changed: set<Name>, values: map<Name, Value>, first: nat): seq<Message>
  {
    if devices == [] then []
    else
      var d := devices[0];
      var names := NewNames(d.names, changed);
      if names == [] then Updates(devices[1..], changed, values, first)
      else [DData(first % 256, d.unit, Reports(names, values))] + Updates(devices[1..], changed, values, first + 1)
  }

  lemma {:induction false} ChangesSent(s: State, devices: seq<Device>, changed: set<Name>)
    requires Numbered(s)
    ensures UpdateDevices(s, devices, changed).since == s.since + Updates(devices, changed, s.values, |s.since|)
    decreases |devices|
  {
    hide Numbered, Kept, NewNames;
    if devices == [] {
      assert s.since + [] == s.since;
    } else {
      var d := devices[0];
      var names := Kept(d.names, changed);
      KeptIsNew(d.names, changed);
      if names == [] {
        ChangesSent(s, devices[1..], changed);
      } else {
        var q := NextSeq(s.sequence);
        var m := DData(q, d.unit, Reports(names, s.values));
        NumberedNext(s, m, s.values);
        SequenceIs(s);
        NextOf(|s.since| - 1);
        ChangesSent(s.(sequence := q, since := s.since + [m]), devices[1..], changed);
        AppendAssociates(s.since, [m], Updates(devices[1..], changed, s.values, |s.since| + 1));
      }
    }
  }

  /** The messages of an update: for the new values, all of them and no others. */
  lemma UpdateSends(s: State, devices: seq<Device>, points: set<Name>, polled: map<Name, Value>, same: Equality)
    requires Numbered(s)
    ensures var s' := Update(s, devices, points, polled, same);
            var news := set n | n in polled && IsNew(s.values, points, polled, same, n);
            s'.since == s.since + Updates(devices, news, s'.values, |s.since|)
  {
    hide UpdateDevices, Updates, Numbered;
    var changed := ChangedSet(s, points, polled, same);
    assert changed == set n | n in polled && IsNew(s.values, points, polled, same, n);
    var s1 := s.(values := Merge(s.values, changed, polled));
    NumberedValues(s, s1.values);
    ChangesSent(s1, devices, changed);
    ChangesKeepValues(s1, devices, changed);
  }

  lemma SequenceIs(s: State)
    requires Numbered(s)
    ensures s.since != [] && s.sequence == (|s.since| - 1) % 256
  {
  }

  /** A birth is an NBIRTH and then one message for each device, with all its points. */
  lemma BirthSends(s: State, devices: seq<Device>)
    ensures var since := Birth(s, devices).since;
            && |since| == 1 + |devices| && since[0] == NBirth(0)
            && forall i :: 0 <= i < |devices| ==>
                 since[i + 1] == DBirth((i + 1) % 256, devices[i].unit, Reports(devices[i].names, s.values))
  {
    var s1 := s.(sequence := 0, since := [NBirth(0)]);
    DevicesBorn(s1, devices);
  }

  lemma {:induction false} DevicesBorn(s: State, devices: seq<Device>)
    requires Numbered(s)
    ensures var since := BirthDevices(s, devices).since;
            && |since| == |s.since| + |devices| && since[..|s.since|] == s.since
            && forall i :: 0 <= i < |devices| ==>
                 since[|s.since| + i] ==
                 DBirth((|s.since| + i) % 256, devices[i].unit, Reports(devices[i].names, s.values))
    decreases |devices|
  {
    hide Numbered;
    if devices != [] {
      var q := NextSeq(s.sequence);
      var m := DBirth(q, devices[0].unit, Reports(devices[0].names, s.values));
      var s1 := s.(sequence := q, since := s.since + [m]);
      NumberedNext(s, m, s.values);
      SequenceIs(s);
      NextOf(|s.since| - 1);
      DevicesBorn(s1, devices[1..]);
      var since := BirthDevices(s, devices).since;
      assert since[..|s1.since|][..|s.since|] == since[..|s.since|];
      assert since[|s.since|] == since[..|s1.since|][|s.since|];
      forall i | 1 <= i < |devices|
        ensures since[|s.since| + i] ==
                DBirth((|s.since| + i) % 256, devices[i].unit, Reports(devices[i].names, s.values))
      {
        assert devices[1..][i - 1] == devices[i];
        assert |s1.since| + (i - 1) == |s.since| + i;
      }
    }
  }

  // ---- whole runs, point by point ----

  /** The last polled value of a point that was new when it was polled. */
  function LastNew(known: Option<Value>, es: seq<Event>, n: Name, same: Equality): Option<Value>
    decreases |es|
  {
    if es == [] then known
    else
      var e := es[0];
      var next :=
        if e.Poll? && n in e.values && (known.Some? ==> !same(known.value, e.values[n])) then Some(e.values[n])
        else known;
      LastNew(next, es[1..], n, same)
  }

  /** A run leaves each point at its last new value, and touches nothing else. */
  lemma {:induction false} RunStores(s: State, points: seq<Point>, es: seq<Event>, same: Equality, n: Name)
    ensures Lookup(Run(s, points, es, same).values, n) ==
            if n in Names(points) then LastNew(Lookup(s.values, n), es, n, same) else Lookup(s.values, n)
    decreases |es|
  {
    hide Birth, Update, Devices;
    if es != [] {
      match es[0] {
        case Rebirth => BirthKeeps(s, Devices(points));
        case Poll(v) =>
          UpdateStores(s, Devices(points), Names(points), v, same);
          assert IsNew(s.values, Names(points), v, same, n) ||
                 Lookup(Update(s, Devices(points), Names(points), v, same).values, n) == Lookup(s.values, n);
      }
      RunStores(Step(s, points, es[0], same), points, es[1..], same, n);
    }
  }

  lemma BirthKeeps(s: State, devices: seq<Device>)
    ensures Birth(s, devices).values == s.values
  {
    var s1 := s.(sequence := 0, since := [NBirth(0)]);
    BirthShows(s1, devices, 0, []);
  }
}
