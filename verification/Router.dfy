/** Registration and routing of applications by CLA and INS (apps/apps.go). */
module Router {
  import Apdu
  import opened Bytes
  import opened Rx
  import opened Transport

  /** What an application's `Handle` returns; a Go panic inside it is `Crash`. */
  datatype AppOutcome<+S> = Answer(state: S, body: seq<byte>, code: uint16) | Crash

  /** The `App` interface: identity, listed commands, and behaviour over a private state. */
  datatype App<!S> = App(id: byte, commands: seq<byte>, state: S, handle: (S, byte, Packet) -> AppOutcome<S>)

  datatype Registry<!S> = Registry(appMap: map<byte, App<S>>, commandAppMap: set<(byte, byte)>)

  function EmptyRegistry<S>(): Registry<S> {
    Registry(map[], {})
  }

  // ---------- registration ----------

  function Pairs<S>(a: App<S>): set<(byte, byte)> {
    set c | c in a.commands :: (a.id, c)
  }

  function Install<S>(r: Registry<S>, apps: seq<App<S>>): Registry<S> {
    if apps == [] then r
    else
      var p, a := Install(r, apps[..|apps| - 1]), apps[|apps| - 1];
      Registry(p.appMap[a.id := a], p.commandAppMap + Pairs(a))
  }

  /** No two of these applications share an ID, and none is taken already. */
  predicate Distinct<S>(r: Registry<S>, apps: seq<App<S>>) {
    forall i :: 0 <= i < |apps| ==>
      apps[i].id !in r.appMap && forall j :: 0 <= j < i ==> apps[j].id != apps[i].id
  }

  /** How many applications of one `Register` call get in: the longest prefix without a clash. */
  function Admitted<S>(r: Registry<S>, apps: seq<App<S>>): (n: nat)
    ensures n <= |apps| && Distinct(r, apps[..n])
    ensures n < |apps| ==> !Distinct(r, apps[..n + 1])
  {
    if apps == [] then 0
    else
      var m := |apps| - 1;
      var n := Admitted(r, apps[..m]);
      assert apps[..m][..n] == apps[..n];
      if n < m then
        assert apps[..m][..n + 1] == apps[..n + 1];
        n
      else if apps[m].id in r.appMap || exists j :: 0 <= j < m && apps[j].id == apps[m].id then
        assert !Distinct(r, apps[..m + 1]) by { assert apps[..m + 1][m] == apps[m]; }
        m
      else
        assert apps[..m + 1] == apps;
        m + 1
  }

  function AfterRegister<S>(r: Registry<S>, apps: seq<App<S>>): Registry<S> {
    Install(r, apps[..Admitted(r, apps)])
  }

  /** The two indices tell the same story. */
  ghost predicate Agrees<S>(r: Registry<S>) {
    && (forall id :: id in r.appMap ==> r.appMap[id].id == id)
    && (forall id, c :: (id, c) in r.commandAppMap <==> id in r.appMap && c in r.appMap[id].commands)
  }

  lemma {:induction false} InstallAgrees<S>(r: Registry<S>, apps: seq<App<S>>)
    requires Agrees(r) && Distinct(r, apps)
    ensures Agrees(Install(r, apps))
    ensures forall i :: 0 <= i < |apps| ==> apps[i].id in Install(r, apps).appMap && Install(r, apps).appMap[apps[i].id] == apps[i]
    ensures forall id :: id in r.appMap ==> id in Install(r, apps).appMap && Install(r, apps).appMap[id] == r.appMap[id]
  {
    if apps != [] {
      var m := |apps| - 1;
      var before := apps[..m];
      assert Distinct(r, before);
      InstallAgrees(r, before);
      assert forall i :: 0 <= i < m ==> before[i] == apps[i];
      InstalledIds(r, before);
    }
  }

  function AfterRegistrations<S>(r: Registry<S>, calls: seq<seq<App<S>>>): Registry<S> {
    if calls == [] then r
    else AfterRegister(AfterRegistrations(r, calls[..|calls| - 1]), calls[|calls| - 1])
  }

  /** After any sequence of `Register` calls, failing ones included, the two indices agree. */
  lemma {:induction false} RegistrationsAgree<S>(calls: seq<seq<App<S>>>)
    ensures Agrees(AfterRegistrations(EmptyRegistry<S>(), calls))
  {
    if calls != [] {
      var before, apps := calls[..|calls| - 1], calls[|calls| - 1];
      RegistrationsAgree(before);
      var r := AfterRegistrations(EmptyRegistry<S>(), before);
      InstallAgrees(r, apps[..Admitted(r, apps)]);
    }
  }

  // ---------- routing ----------

  /** CLA and INS of a message; the parser's failure is swallowed and leaves both at zero. */
  function Header(parses: seq<byte> -> bool, data: seq<byte>): (byte, byte) {
    if parses(data) && |data| >= 2 then (data[0], data[1]) else (0, 0)
  }

  function RouteTo<S>(parses: seq<byte> -> bool, r: Registry<S>, p: Packet): Outcome<Registry<S>> {
    var (cla, ins) := Header(parses, p.message);
    if cla !in r.appMap then Done(r, Some(Apdu.PackageResponse([], Apdu.CLA_NOT_SUPPORTED)))
    else if (cla, ins) !in r.commandAppMap then Done(r, Some(Apdu.PackageResponse([], Apdu.CLA_NOT_SUPPORTED)))
    else Call(r, cla, ins, p)
  }

  /** The reply of one registered application, and the registry with that application's new state. */
  function Call<S>(r: Registry<S>, id: byte, command: byte, p: Packet): Outcome<Registry<S>>
    requires id in r.appMap
  {
    var app := r.appMap[id];
    match app.handle(app.state, command, p)
    case Crash => Panic
    case Answer(state, body, code) =>
      Done(r.(appMap := r.appMap[id := app.(state := state)]), Some(Apdu.PackageResponse(body, code)))
  }

  /**
    * On an agreeing registry a message reaches an application exactly when that application lists its
    * command; otherwise the reply is 0x6E00 and nothing changes. Routing keeps the registry agreeing.
    */
  lemma HandleReaches<S>(parses: seq<byte> -> bool, r: Registry<S>, p: Packet)
    requires Agrees(r)
    ensures var (cla, ins) := Header(parses, p.message);
      RouteTo(parses, r, p) ==
        if cla in r.appMap && ins in r.appMap[cla].commands then Call(r, cla, ins, p)
        else Done(r, Some([0x6E, 0x00]))
    ensures RouteTo(parses, r, p).Done? ==>
      RouteTo(parses, r, p).response.Some? && |RouteTo(parses, r, p).response.value| >= 2
    ensures RouteTo(parses, r, p).Done? ==>
      var r' := RouteTo(parses, r, p).app;
      Agrees(r') && r'.commandAppMap == r.commandAppMap && r'.appMap.Keys == r.appMap.Keys
  {
    var (cla, ins) := Header(parses, p.message);
    assert Apdu.PackageResponse([], Apdu.CLA_NOT_SUPPORTED) == [0x6E, 0x00];
    if cla in r.appMap && ins in r.appMap[cla].commands && Call(r, cla, ins, p).Done? {
      var r' := Call(r, cla, ins, p).app;
      assert r'.appMap.Keys == r.appMap.Keys;
    }
  }

  class Handler<S> {
    var appMap: map<byte, App<S>>
    var commandAppMap: set<(byte, byte)>

    ghost function Value(): Registry<S>
      reads this
    {
      Registry(appMap, commandAppMap)
    }

    constructor ()
      ensures Value() == EmptyRegistry<S>()
    {
      appMap, commandAppMap := map[], {};
    }

    method Register(apps: seq<App<S>>) returns (ok: bool)
      modifies this
      ensures Value() == AfterRegister(old(Value()), apps)
      ensures ok <==> Distinct(old(Value()), apps)
    {
      ghost var r := Value();
      for i := 0 to |apps|
        invariant Distinct(r, apps[..i])
        invariant Value() == Install(r, apps[..i])
      {
        ClashIff(r, apps, i);
        if apps[i].id in appMap {
          AdmittedIs(r, apps, i);
          return false;
        }
        Admit(apps[i]);
        assert apps[..i + 1][..i] == apps[..i];
      }
      assert apps[..|apps|] == apps;
      AdmittedIs(r, apps, |apps|);
      return true;
    }

    /** One round of `Register`'s outer loop: the application and each of its commands. */
    method Admit(app: App<S>)
      modifies this
      ensures appMap == old(appMap)[app.id := app]
      ensures commandAppMap == old(commandAppMap) + Pairs(app)
    {
      appMap := appMap[app.id := app];
      for c := 0 to |app.commands|
        invariant appMap == old(appMap)[app.id := app]
        invariant commandAppMap == old(commandAppMap) + set k | 0 <= k < c :: (app.id, app.commands[k])
      {
        commandAppMap := commandAppMap + {(app.id, app.commands[c])};
      }
      assert Pairs(app) == set k | 0 <= k < |app.commands| :: (app.id, app.commands[k]);
    }

    method Handle(parses: seq<byte> -> bool, p: Packet) returns (o: Option<seq<byte>>)
      modifies this
      ensures match RouteTo(parses, old(Value()), p)
        case Panic => o == None
        case Done(r, resp) => Value() == r && o == resp
    {
      var (appID, command) := Header(parses, p.message);
      if appID !in appMap {
        return Some(Apdu.PackageResponse([], Apdu.CLA_NOT_SUPPORTED));
      }
      if (appID, command) !in commandAppMap {
        return Some(Apdu.PackageResponse([], Apdu.CLA_NOT_SUPPORTED));
      }
      var app := appMap[appID];
      match app.handle(app.state, command, p) {
        case Crash =>
          return None;
        case Answer(state, body, code) =>
          appMap := appMap[appID := app.(state := state)];
          return Some(Apdu.PackageResponse(body, code));
      }
    }
  }

  /** The number admitted is pinned by what `Admitted` promises. */
  lemma AdmittedIs<S>(r: Registry<S>, apps: seq<App<S>>, n: nat)
    requires n <= |apps| && Distinct(r, apps[..n])
    requires n < |apps| ==> !Distinct(r, apps[..n + 1])
    ensures Admitted(r, apps) == n
  {
    var m := Admitted(r, apps);
    if m < n {
      DistinctPrefix(r, apps, m + 1, n);
    } else if n < m {
      DistinctPrefix(r, apps, n + 1, m);
    }
  }

  lemma DistinctPrefix<S>(r: Registry<S>, apps: seq<App<S>>, m: nat, n: nat)
    requires m <= n <= |apps| && Distinct(r, apps[..n])
    ensures Distinct(r, apps[..m])
  {
    assert forall k :: 0 <= k < m ==> apps[..m][k] == apps[..n][k];
  }

  /** The duplicate test on the index built so far decides whether the next prefix is clash-free. */
  lemma ClashIff<S>(r: Registry<S>, apps: seq<App<S>>, i: nat)
    requires i < |apps| && Distinct(r, apps[..i])
    ensures apps[i].id in Install(r, apps[..i]).appMap <==> !Distinct(r, apps[..i + 1])
    ensures !Distinct(r, apps[..i + 1]) ==> !Distinct(r, apps)
  {
    InstalledIds(r, apps[..i]);
    var next := apps[..i + 1];
    assert next[i] == apps[i] && forall k :: 0 <= k < i ==> next[k] == apps[..i][k] == apps[k];
  }

  lemma {:induction false} InstalledIds<S>(r: Registry<S>, apps: seq<App<S>>)
    ensures forall id :: id in Install(r, apps).appMap <==> id in r.appMap || exists i :: 0 <= i < |apps| && apps[i].id == id
  {
    if apps != [] {
      var m := |apps| - 1;
      InstalledIds(r, apps[..m]);
      assert forall i :: 0 <= i < m ==> apps[..m][i] == apps[i];
    }
  }
}
