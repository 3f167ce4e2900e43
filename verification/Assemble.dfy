/** The end of a configuration import: _assemble of app/ser2net_import.py drops connections
    that do not validate or would listen where an earlier one does, makes names unique and
    keeps one active connection per device; and the cross-mapping checks of
    AppConfig.validate in app/config.py that its result has to pass. */
module Assemble {
  import opened Common

  datatype Mode = Server | Udp | OutgoingClient

  datatype Transport = Tcp | UdpPort

  /** A parsed connection. `sound` stands for every check of MappingConfig.validate that
      does not look at the name. */
  datatype Conn = Conn(name: string, enabled: bool, device: string, mode: Mode, bindIp: string, port: int, sound: bool)

  function TransportOf(m: Mode): Transport { if m.Udp? then UdpPort else Tcp }

  predicate IsWildcard(ip: string) { ip == "0.0.0.0" || ip == "::" }

  /** _ip_overlaps */
  predicate IpOverlaps(a: string, b: string) { a == b || IsWildcard(a) || IsWildcard(b) }

  /** A listener takes connections for its own address, and one on "0.0.0.0" or "::" for
      all. */
  predicate TakesFor(ip: string, address: string) { ip == address || ip == "0.0.0.0" || ip == "::" }

  /** Two listeners overlap exactly when some address is taken by both. */
  lemma OverlapMeans(a: string, b: string)
    ensures IpOverlaps(a, b) <==> exists address :: TakesFor(a, address) && TakesFor(b, address)
  {
    assert TakesFor(a, a) && TakesFor(b, b);
  }

  predicate NonBlank(name: string) { exists i :: 0 <= i < |name| && !IsSpace(name[i]) }

  predicate Valid(c: Conn) { c.sound && NonBlank(c.name) }

  predicate Clash(a: Conn, b: Conn)
  {
    a.port == b.port && TransportOf(a.mode) == TransportOf(b.mode) && IpOverlaps(a.bindIp, b.bindIp)
  }

  predicate ClashesWithAny(kept: seq<Conn>, c: Conn) { exists i :: 0 <= i < |kept| && Clash(kept[i], c) }

  // ---- first pass: what is kept ----

  function KeepOne(kept: seq<Conn>, c: Conn): seq<Conn>
  {
    if !Valid(c) || ClashesWithAny(kept, c) then kept else kept + [c]
  }

  function Keep(conns: seq<Conn>): seq<Conn>
  {
    if conns == [] then [] else KeepOne(Keep(conns[..|conns| - 1]), conns[|conns| - 1])
  }

  // ---- second pass: names and devices ----

  function Decimal(n: nat): (r: string)
    ensures |r| > 0
  {
    var digit := ["0123456789"[n % 10]];
    if n < 10 then digit else Decimal(n / 10) + digit
  }

  /** The number that digits stand for. */
  function Value(s: string): int
  {
    if s == "" then 0 else 10 * Value(s[..|s| - 1]) + (s[|s| - 1] as int - '0' as int)
  }

  lemma {:induction false} DecimalReads(n: nat)
    ensures Value(Decimal(n)) == n && forall i :: 0 <= i < |Decimal(n)| ==> '0' <= Decimal(n)[i] <= '9'
    ensures |Decimal(n)| > 1 ==> Decimal(n)[0] != '0'
  {
    var d := Decimal(n);
    if n < 10 {
      assert d[..|d| - 1] == "";
    } else {
      DecimalReads(n / 10);
      assert d[..|d| - 1] == Decimal(n / 10);
      FirstDigit(n / 10);
    }
  }

  lemma FirstDigit(n: nat)
    requires n > 0 && (|Decimal(n)| > 1 ==> Decimal(n)[0] != '0')
    ensures Decimal(n)[0] != '0'
  {
  }

  /** The k-th name tried for a connection. */
  function Candidate(base: string, k: nat): string
  {
    if k <= 1 then base else base + (" (" + (Decimal(k) + ")"))
  }

  lemma {:induction false} DecimalInjective(a: nat, b: nat)
    requires Decimal(a) == Decimal(b)
    ensures a == b
  {
    var da, db := Decimal(a), Decimal(b);
    assert da[|da| - 1] == "0123456789"[a % 10] && db[|db| - 1] == "0123456789"[b % 10];
    assert a % 10 == b % 10;
    if a >= 10 && b >= 10 {
      assert da[..|da| - 1] == Decimal(a / 10) && db[..|db| - 1] == Decimal(b / 10);
      DecimalInjective(a / 10, b / 10);
    }
  }

  lemma CandidateInjective(base: string, i: nat, j: nat)
    requires 1 <= i && 1 <= j && Candidate(base, i) == Candidate(base, j)
    ensures i == j
  {
    if i > 1 && j > 1 {
      var x, y := " (" + (Decimal(i) + ")"), " (" + (Decimal(j) + ")");
      DropLength(base, x);
      DropLength(base, y);
      DropLength(" (", Decimal(i) + ")");
      DropLength(" (", Decimal(j) + ")");
      assert (Decimal(i) + ")")[..|Decimal(i)|] == Decimal(i);
      assert (Decimal(j) + ")")[..|Decimal(j)|] == Decimal(j);
      DecimalInjective(i, j);
    }
  }

  ghost predicate TriedFrom(base: string, k: nat, n: string) { exists j: nat :: j >= k && n == Candidate(base, j) }

  /** The used names that the search may still meet. */
  ghost function Ahead(base: string, k: nat, used: set<string>): set<string>
  {
    set n | n in used && TriedFrom(base, k, n)
  }

  ghost function Left(base: string, k: nat, used: set<string>): nat { |Ahead(base, k, used)| }

  /** Each used name is met at most once, so the search ends. */
  lemma AheadShrinks(base: string, k: nat, used: set<string>)
    requires k >= 1 && Candidate(base, k) in used
    ensures Left(base, k + 1, used) < Left(base, k, used)
  {
    var now, next := Ahead(base, k, used), Ahead(base, k + 1, used);
    assert TriedFrom(base, k, Candidate(base, k));
    assert Candidate(base, k) in now;
    if TriedFrom(base, k + 1, Candidate(base, k)) {
      var j: nat :| j >= k + 1 && Candidate(base, k) == Candidate(base, j);
      CandidateInjective(base, k, j);
    }
    assert next <= now - {Candidate(base, k)};
    Smaller(next, now - {Candidate(base, k)});
  }

  lemma {:induction false} Smaller(a: set<string>, b: set<string>)
    requires a <= b
    ensures |a| <= |b|
  {
    if a != {} {
      var x :| x in a;
      Smaller(a - {x}, b - {x});
    }
  }

  /** The number of the first name, from the k-th on, that is free. */
  function FirstFree(base: string, used: set<string>, k: nat): nat
    requires k >= 1
    decreases Left(base, k, used)
  {
    hide Left, Candidate;
    if Candidate(base, k) !in used then k
    else
      AheadShrinks(base, k, used);
      FirstFree(base, used, k + 1)
  }

  predicate AllTaken(base: string, from: nat, k: nat, names: set<string>)
  {
    forall j :: from <= j < k ==> Candidate(base, j) in names
  }

  lemma {:induction false} FirstFreeIsFree(base: string, used: set<string>, k: nat)
    requires k >= 1
    ensures var r := FirstFree(base, used, k);
            r >= k && Candidate(base, r) !in used && AllTaken(base, k, r, used)
    decreases Left(base, k, used)
  {
    hide Left, Candidate;
    if Candidate(base, k) in used {
      AheadShrinks(base, k, used);
      FirstFreeIsFree(base, used, k + 1);
    }
  }

  /** The renaming loop: "name (2)", "name (3)" and so on while the name is used. */
  method PickName(base: string, used: set<string>) returns (name: string)
    ensures name == Candidate(base, FirstFree(base, used, 1)) && name !in used
    ensures name == base || exists k: nat :: k >= 2 && name == base + (" (" + (Decimal(k) + ")"))
    ensures base !in used ==> name == base
  {
    hide Left;
    FirstFreeIsFree(base, used, 1);
    name := base;
    var k := 1;
    while name in used
      invariant k >= 1 && name == Candidate(base, k)
      invariant FirstFree(base, used, k) == FirstFree(base, used, 1)
      decreases Left(base, k, used)
    {
      AheadShrinks(base, k, used);
      k := k + 1;
      name := base + (" (" + (Decimal(k) + ")"));
    }
    if k >= 2 {
      assert name == base + (" (" + (Decimal(k) + ")"));
    }
  }

  /** The second pass, with the names used and the devices owned so far. */
  function Finish(kept: seq<Conn>, used: set<string>, owned: set<string>): (r: seq<Conn>)
    ensures |r| == |kept|
    decreases |kept|
  {
    if kept == [] then []
    else
      var c := kept[0];
      var name := Candidate(c.name, FirstFree(c.name, used, 1));
      var owner := c.enabled && c.device !in owned;
      [c.(name := name, enabled := owner)]
      + Finish(kept[1..], used + {name}, if owner then owned + {c.device} else owned)
  }

  function AssembleAll(conns: seq<Conn>): seq<Conn> { Finish(Keep(conns), {}, {}) }

  /** _assemble: the two loops; connections are renamed and disabled in the list. */
  method AssembleConns(conns: seq<Conn>) returns (r: seq<Conn>)
    ensures r == AssembleAll(conns)
  {
    hide FirstFree, Candidate, Valid, ClashesWithAny;
    var kept: seq<Conn> := [];
    for i := 0 to |conns|
      invariant kept == Keep(conns[..i])
    {
      var c := conns[i];
      assert conns[..i + 1][..i] == conns[..i];
      if !Valid(c) {
        continue;
      }
      if ClashesWithAny(kept, c) {
        continue;
      }
      kept := kept + [c];
    }
    assert conns[..|conns|] == conns;
    var used: set<string>, owned: set<string> := {}, {};
    r := kept;
    ghost var spec := Finish(kept, {}, {});
    assert r[..0] + Finish(r[0..], {}, {}) == spec by {
      assert r[0..] == r;
    }
    for i := 0 to |kept|
      invariant |r| == |kept| && r[..i] + Finish(r[i..], used, owned) == spec
    {
      var c := r[i];
      var name := PickName(c.name, used);
      var owner := c.enabled && c.device !in owned;
      FinishStep(r, i, used, owned);
      used := used + {name};
      owned := if owner then owned + {c.device} else owned;
      r := r[i := c.(name := name, enabled := owner)];
    }
    assert r[..|r|] + [] == r;
  }

  lemma FinishStep(r: seq<Conn>, i: nat, used: set<string>, owned: set<string>)
    requires i < |r|
    ensures var c := r[i];
            var name := Candidate(c.name, FirstFree(c.name, used, 1));
            var owner := c.enabled && c.device !in owned;
            var c' := c.(name := name, enabled := owner);
            r[..i] + Finish(r[i..], used, owned) ==
            r[i := c'][..i + 1] +
            Finish(r[i := c'][i + 1..], used + {name}, if owner then owned + {c.device} else owned)
  {
    hide FirstFree, Candidate;
    var c := r[i];
    var name := Candidate(c.name, FirstFree(c.name, used, 1));
    var owner := c.enabled && c.device !in owned;
    var c' := c.(name := name, enabled := owner);
    var rest := Finish(r[i + 1..], used + {name}, if owner then owned + {c.device} else owned);
    DropTwice(r, i, 1);
    assert r[i := c'][..i + 1] == r[..i] + [c'] && r[i := c'][i + 1..] == r[i + 1..];
    AppendAssociates(r[..i], [c'], rest);
  }

  // ---- what the first pass guarantees ----

  predicate AllValid(cs: seq<Conn>) { forall i :: 0 <= i < |cs| ==> Valid(cs[i]) }

  predicate NoneClash(cs: seq<Conn>) { forall i, j :: 0 <= i < j < |cs| ==> !Clash(cs[i], cs[j]) }

  lemma {:induction false} KeepSound(conns: seq<Conn>)
    ensures AllValid(Keep(conns)) && NoneClash(Keep(conns))
  {
    hide Valid, Clash;
    if conns != [] {
      var front := conns[..|conns| - 1];
      KeepSound(front);
      KeepOneSound(Keep(front), conns[|conns| - 1]);
    }
  }

  lemma KeepOneSound(kept: seq<Conn>, c: Conn)
    requires AllValid(kept) && NoneClash(kept)
    ensures AllValid(KeepOne(kept, c)) && NoneClash(KeepOne(kept, c))
  {
    hide Valid, Clash;
    if KeepOne(kept, c) != kept {
      assert forall i :: 0 <= i < |kept| ==> (kept + [c])[i] == kept[i];
    }
  }

  /** Nothing is dropped without reason: a connection is kept, or does not validate, or
      clashes with one kept before it. */
  lemma {:induction false} KeepComplete(conns: seq<Conn>, i: nat)
    requires i < |conns|
    ensures conns[i] in Keep(conns) || !Valid(conns[i]) || ClashesWithAny(Keep(conns[..i]), conns[i])
  {
    var front := conns[..|conns| - 1];
    if i < |front| {
      KeepComplete(front, i);
      assert front[..i] == conns[..i];
    }
  }

  // ---- what the second pass guarantees ----

  function NamesOf(cs: seq<Conn>): set<string> { set i | 0 <= i < |cs| :: cs[i].name }

  function OwnedBy(cs: seq<Conn>): set<string> { set i | 0 <= i < |cs| && cs[i].enabled :: cs[i].device }

  /** What the second pass may change, and when: the name becomes the first of the names
      tried that no earlier connection has, and a connection is disabled exactly when an
      earlier active one has its device. */
  ghost predicate FinishedAt(kept: seq<Conn>, r: seq<Conn>, i: nat, used: set<string>, owned: set<string>)
    requires i < |kept| == |r|
  {
    var names, devices := used + NamesOf(r[..i]), owned + OwnedBy(r[..i]);
    && r[i] == kept[i].(name := r[i].name, enabled := r[i].enabled)
    && r[i].name !in names
    && (exists k: nat :: k >= 1 && r[i].name == Candidate(kept[i].name, k) && AllTaken(kept[i].name, 1, k, names))
    && r[i].enabled == (kept[i].enabled && kept[i].device !in devices)
  }

  lemma {:induction false} FinishExact(kept: seq<Conn>, used: set<string>, owned: set<string>, i: nat)
    requires i < |kept|
    ensures FinishedAt(kept, Finish(kept, used, owned), i, used, owned)
    decreases |kept|
  {
    hide FirstFree, Candidate, AllTaken, NamesOf, OwnedBy;
    var c := kept[0];
    var k := FirstFree(c.name, used, 1);
    FirstFreeIsFree(c.name, used, 1);
    var name := Candidate(c.name, k);
    var owner := c.enabled && c.device !in owned;
    var r := Finish(kept, used, owned);
    var owned' := if owner then owned + {c.device} else owned;
    var rest := Finish(kept[1..], used + {name}, owned');
    if i == 0 {
      NothingYet(r[..0]);
      assert used + {} == used && owned + {} == owned;
    } else {
      FinishExact(kept[1..], used + {name}, owned', i - 1);
      SplitFirst(r, i);
      assert rest[..i - 1] == r[1..][..i - 1];
      assert used + {name} + NamesOf(rest[..i - 1]) == used + NamesOf(r[..i]);
      assert owned' + OwnedBy(rest[..i - 1]) == owned + OwnedBy(r[..i]);
    }
  }

  lemma NothingYet(r: seq<Conn>)
    requires |r| == 0
    ensures NamesOf(r) == {} && OwnedBy(r) == {}
  {
  }

  lemma SplitFirst(r: seq<Conn>, i: nat)
    requires 0 < i <= |r|
    ensures NamesOf(r[..i]) == {r[0].name} + NamesOf(r[1..][..i - 1])
    ensures OwnedBy(r[..i]) == (if r[0].enabled then {r[0].device} else {}) + OwnedBy(r[1..][..i - 1])
  {
    var tail := r[1..][..i - 1];
    forall n | n in NamesOf(r[..i]) ensures n in {r[0].name} + NamesOf(tail) {
      var j :| 0 <= j < i && r[..i][j].name == n;
      if j > 0 {
        assert tail[j - 1].name == n;
      }
    }
    forall n | n in {r[0].name} + NamesOf(tail) ensures n in NamesOf(r[..i]) {
      if n in NamesOf(tail) {
        var j :| 0 <= j < |tail| && tail[j].name == n;
        assert r[..i][j + 1].name == n;
      } else {
        assert r[..i][0].name == n;
      }
    }
    forall d | d in OwnedBy(r[..i]) ensures d in (if r[0].enabled then {r[0].device} else {}) + OwnedBy(tail) {
      var j :| 0 <= j < i && r[..i][j].enabled && r[..i][j].device == d;
      if j > 0 {
        assert tail[j - 1].enabled && tail[j - 1].device == d;
      }
    }
    forall d | d in (if r[0].enabled then {r[0].device} else {}) + OwnedBy(tail) ensures d in OwnedBy(r[..i]) {
      if d in OwnedBy(tail) {
        var j :| 0 <= j < |tail| && tail[j].enabled && tail[j].device == d;
        assert r[..i][j + 1].enabled && r[..i][j + 1].device == d;
      } else {
        assert r[..i][0].enabled && r[..i][0].device == d;
      }
    }
  }

  lemma CandidateNonBlank(base: string, k: nat)
    requires NonBlank(base)
    ensures NonBlank(Candidate(base, k))
  {
    var i :| 0 <= i < |base| && !IsSpace(base[i]);
    assert Candidate(base, k)[i] == base[i];
  }

  predicate DistinctNames(cs: seq<Conn>) { forall i, j :: 0 <= i < j < |cs| ==> cs[i].name != cs[j].name }

  predicate ShareDevice(a: Conn, b: Conn) { a.enabled && b.enabled && a.device == b.device }

  predicate OneOwnerEach(cs: seq<Conn>) { forall i, j :: 0 <= i < j < |cs| ==> !ShareDevice(cs[i], cs[j]) }

  lemma StillValid(conns: seq<Conn>, i: nat)
    requires i < |AssembleAll(conns)|
    ensures Valid(AssembleAll(conns)[i])
  {
    hide Finish, Keep, Candidate, NonBlank;
    var kept, r := Keep(conns), AssembleAll(conns);
    KeepSound(conns);
    assert Valid(kept[i]);
    FinishExact(kept, {}, {}, i);
    var k: nat :| k >= 1 && r[i].name == Candidate(kept[i].name, k);
    CandidateNonBlank(kept[i].name, k);
  }

  lemma StillApart(conns: seq<Conn>, i: nat, j: nat)
    requires i < j < |AssembleAll(conns)|
    ensures var r := AssembleAll(conns);
            !Clash(r[i], r[j]) && r[i].name != r[j].name && !ShareDevice(r[i], r[j])
  {
    hide Finish, Keep, Candidate;
    var kept, r := Keep(conns), AssembleAll(conns);
    KeepSound(conns);
    assert !Clash(kept[i], kept[j]);
    FinishExact(kept, {}, {}, i);
    FinishExact(kept, {}, {}, j);
    assert r[..j][i] == r[i];
    assert r[i].name in NamesOf(r[..j]);
    if r[i].enabled {
      assert r[i].device in OwnedBy(r[..j]);
    }
  }

  /** The result as a whole: every connection valid, no two listening on overlapping
      addresses, all names different, no device active twice. */
  lemma AssembledSound(conns: seq<Conn>)
    ensures var r := AssembleAll(conns);
            AllValid(r) && NoneClash(r) && DistinctNames(r) && OneOwnerEach(r)
  {
    hide AssembleAll, Clash, ShareDevice, Valid;
    var r := AssembleAll(conns);
    forall i | 0 <= i < |r| ensures Valid(r[i]) {
      StillValid(conns, i);
    }
    forall i, j | 0 <= i < j < |r| ensures !Clash(r[i], r[j]) && r[i].name != r[j].name && !ShareDevice(r[i], r[j]) {
      StillApart(conns, i, j);
    }
  }

  // ---- AppConfig.validate ----

  datatype Kind = Net | SerialBridge

  /** A mapping as the cross-mapping checks see it. A dynamic device (one found by match)
      is resolved only when it is opened. */
  datatype Mapping = Mapping(id: string, name: string, enabled: bool, kind: Kind, device: string, dynamic: bool,
                             deviceB: string, dynamicB: bool, mode: Mode, bindIp: string, port: int, valid: bool)

  predicate Uses(m: Mapping, dev: string)
  {
    && m.enabled && dev != ""
    && ((m.device == dev && !m.dynamic) || (m.kind.SerialBridge? && m.deviceB == dev && !m.dynamicB))
  }

  predicate Listens(m: Mapping) { m.kind.Net? && !m.mode.OutgoingClient? }

  /** Two mappings that may stand in one configuration. */
  ghost predicate Compatible(a: Mapping, b: Mapping)
  {
    && !(Listens(a) && Listens(b) && TransportOf(a.mode) == TransportOf(b.mode) && a.port == b.port
         && IpOverlaps(a.bindIp, b.bindIp))
    && (a.id != b.id ==> forall dev :: !(Uses(a, dev) && Uses(b, dev)))
  }

  ghost predicate AllCompatible(ms: seq<Mapping>)
  {
    && (forall i :: 0 <= i < |ms| ==> ms[i].valid)
    && forall i, j :: 0 <= i < j < |ms| ==> Compatible(ms[i], ms[j])
  }

  datatype Listener = Listener(transport: Transport, ip: string, port: int)

  function ListenerOf(m: Mapping): Listener { Listener(TransportOf(m.mode), m.bindIp, m.port) }

  /** The devices a mapping opens, in the order they are checked. */
  function DevicesOf(m: Mapping): (r: seq<string>)
    ensures |r| <= 2 && forall dev :: dev in r <==> Uses(m, dev)
  {
    (if m.enabled && m.device != "" && !m.dynamic then [m.device] else [])
    + if m.enabled && m.kind.SerialBridge? && m.deviceB != "" && !m.dynamicB then [m.deviceB] else []
  }

  /** The listeners recorded for the mappings checked so far. */
  function Listeners(ms: seq<Mapping>): set<Listener> { set i | 0 <= i < |ms| && Listens(ms[i]) :: ListenerOf(ms[i]) }

  predicate Overlap(a: Listener, b: Listener)
  {
    a.transport == b.transport && a.port == b.port && IpOverlaps(a.ip, b.ip)
  }

  predicate TakenBy(ms: seq<Mapping>, l: Listener)
  {
    exists i :: 0 <= i < |ms| && Listens(ms[i]) && Overlap(ListenerOf(ms[i]), l)
  }

  predicate UsedBy(ms: seq<Mapping>, dev: string, id: string)
  {
    exists i :: 0 <= i < |ms| && Uses(ms[i], dev) && ms[i].id == id
  }

  /** The dictionary of owners: an entry for exactly the devices used, and no device used
      under two ids. */
  ghost predicate Owners(ms: seq<Mapping>, owner: map<string, string>)
  {
    && (forall dev :: dev in owner ==> UsedBy(ms, dev, owner[dev]))
    && (forall i, dev :: 0 <= i < |ms| && Uses(ms[i], dev) ==> dev in owner && owner[dev] == ms[i].id)
  }

  /** No device of m is in use under another id. */
  ghost predicate FreeFor(ms: seq<Mapping>, m: Mapping)
  {
    forall i, dev :: 0 <= i < |ms| && Uses(ms[i], dev) && Uses(m, dev) ==> ms[i].id == m.id
  }

  lemma OwnersDecide(ms: seq<Mapping>, m: Mapping, owner: map<string, string>)
    requires Owners(ms, owner)
    ensures FreeFor(ms, m) <==> forall dev :: dev in owner && Uses(m, dev) ==> owner[dev] == m.id
  {
    hide Uses;
    if FreeFor(ms, m) {
      forall dev | dev in owner && Uses(m, dev) ensures owner[dev] == m.id {
        assert UsedBy(ms, dev, owner[dev]);
      }
    }
  }

  /** The inner loop over the devices of one mapping. */
  method ClaimDevices(ghost ms: seq<Mapping>, m: Mapping, owner: map<string, string>)
    returns (ok: bool, r: map<string, string>)
    requires Owners(ms, owner)
    ensures ok <==> FreeFor(ms, m)
    ensures ok ==> Owners(ms + [m], r)
  {
    hide Uses, Owners, FreeFor;
    OwnersDecide(ms, m, owner);
    var devices := DevicesOf(m);
    r := owner;
    for d := 0 to |devices|
      invariant forall dev :: dev in devices[..d] ==> dev in r && r[dev] == m.id
      invariant forall dev :: dev in devices[..d] && dev in owner ==> owner[dev] == m.id
      invariant forall dev :: dev in r <==> dev in devices[..d] || dev in owner
      invariant forall dev :: dev in owner ==> r[dev] == owner[dev]
    {
      var dev := devices[d];
      if dev in r && r[dev] != m.id {
        assert dev in owner && Uses(m, dev);
        return false, r;
      }
      r := r[dev := m.id];
      assert devices[..d + 1] == devices[..d] + [dev];
    }
    assert devices[..|devices|] == devices;
    OwnersExtend(ms, m, owner, r);
    ok := true;
  }

  lemma OwnersExtend(ms: seq<Mapping>, m: Mapping, owner: map<string, string>, r: map<string, string>)
    requires Owners(ms, owner)
    requires forall dev :: dev in r <==> Uses(m, dev) || dev in owner
    requires forall dev :: dev in owner ==> r[dev] == owner[dev]
    requires forall dev :: dev in r && Uses(m, dev) ==> r[dev] == m.id
    ensures Owners(ms + [m], r)
  {
    hide Uses;
    var all := ms + [m];
    forall dev | dev in r ensures UsedBy(all, dev, r[dev]) {
      if dev in owner {
        var i :| 0 <= i < |ms| && Uses(ms[i], dev) && ms[i].id == owner[dev];
        assert Uses(all[i], dev) && all[i].id == r[dev];
      } else {
        assert Uses(all[|ms|], dev) && all[|ms|].id == r[dev];
      }
    }
  }

  lemma ListenersExtend(ms: seq<Mapping>, m: Mapping)
    ensures Listeners(ms + [m]) == Listeners(ms) + if Listens(m) then {ListenerOf(m)} else {}
  {
    hide Listens, ListenerOf;
    var all := ms + [m];
    forall l | l in Listeners(ms) ensures l in Listeners(all) {
      var i :| 0 <= i < |ms| && Listens(ms[i]) && ListenerOf(ms[i]) == l;
      assert Listens(all[i]) && ListenerOf(all[i]) == l;
    }
    if Listens(m) {
      assert Listens(all[|ms|]) && ListenerOf(all[|ms|]) == ListenerOf(m);
    }
  }

  lemma CompatibleWithAll(ms: seq<Mapping>, m: Mapping)
    requires AllCompatible(ms) && m.valid
    ensures AllCompatible(ms + [m]) <==>
            && !(Listens(m) && TakenBy(ms, ListenerOf(m)))
            && FreeFor(ms, m)
  {
    hide Uses, IpOverlaps;
    var all := ms + [m];
    assert forall i :: 0 <= i < |ms| ==> all[i] == ms[i];
    assert all[|ms|] == m;
    assert AllCompatible(all) <==> forall i :: 0 <= i < |ms| ==> Compatible(ms[i], m);
  }

  lemma PrefixCompatible(ms: seq<Mapping>, n: nat)
    requires n <= |ms| && AllCompatible(ms)
    ensures AllCompatible(ms[..n])
  {
    hide Compatible;
  }

  /** The loop of AppConfig.validate with its two dictionaries accepts exactly the
      configurations whose mappings are valid and pairwise compatible. */
  method CrossCheck(ms: seq<Mapping>) returns (ok: bool)
    ensures ok <==> AllCompatible(ms)
  {
    hide Compatible, Uses, Owners, FreeFor, Listens, ListenerOf, IpOverlaps;
    var seen: set<Listener> := {};
    var owner: map<string, string> := map[];
    assert Owners([], map[]) by {
      NothingOwned();
    }
    for i := 0 to |ms|
      invariant AllCompatible(ms[..i])
      invariant seen == Listeners(ms[..i])
      invariant Owners(ms[..i], owner)
    {
      var m := ms[i];
      if !m.valid {
        return false;
      }
      assert ms[..i + 1] == ms[..i] + [m];
      CompatibleWithAll(ms[..i], m);
      ListenersExtend(ms[..i], m);
      if AllCompatible(ms) {
        PrefixCompatible(ms, i + 1);
      }
      var claimed;
      claimed, owner := ClaimDevices(ms[..i], m, owner);
      if !claimed {
        return false;
      }
      if !Listens(m) {
        continue;
      }
      var mine := ListenerOf(m);
      if exists l :: l in seen && Overlap(l, mine) {
        return false;
      }
      seen := seen + {mine};
    }
    assert ms[..|ms|] == ms;
    ok := true;
  }

  lemma NothingOwned()
    ensures Owners([], map[])
  {
  }

  /** An imported connection becomes a network mapping with a literal device. */
  function ToMapping(c: Conn, id: string): Mapping
  {
    Mapping(id, c.name, c.enabled, Net, c.device, false, "", false, c.mode, c.bindIp, c.port, Valid(c))
  }

  /** The import passes the checks as a whole, whatever ids its mappings are given. */
  lemma AssembledPasses(conns: seq<Conn>, ids: seq<string>)
    requires |ids| == |AssembleAll(conns)|
    ensures AllCompatible(seq(|ids|, i requires 0 <= i < |ids| => ToMapping(AssembleAll(conns)[i], ids[i])))
  {
    AssembledSound(conns);
  }
}
