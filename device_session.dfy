/**
 * The Ledger device session of `getApp`: the module-level `appInstance` and
 * `portInstance`, reused, acquired or torn down on each call.
 *
 * Whether a WebUSB transport can be opened and what the liveness probe (the
 * `getAppName` call raced against a 300 ms timer) yields are inputs of each call.
 * Opening the pairing window and waiting for the user to pair becomes the
 * `ManualConnected` result.
 */
module DeviceSession {
  import opened Wrappers

  /** A WebUSB transport. */
  class Port {
    var isOpen: bool

    constructor Open()
      ensures isOpen
    {
      isOpen := true;
    }

    method Close()
      modifies this
      ensures !isOpen
    {
      isOpen := false;
    }
  }

  /** A `MinaLedgerJS` handle over one transport. */
  class App {
    const transport: Port

    constructor (transport: Port)
      ensures this.transport == transport
    {
      this.transport := transport;
    }
  }

  /** The winner of the race between `getAppName()` and the timer. */
  datatype Probe =
    | Timeout
    | Reply(returnCode: string, name: Option<string>)

  /** The return code of a locked device or of no open app. */
  const LockedCode: string := "5000"

  /**
   * Whether the probe shows the session is stale: a timeout, the locked code, or a
   * missing or empty app name. Any other code with a name counts as live.
   */
  predicate IsStale(probe: Probe) {
    match probe
    case Timeout => true
    case Reply(code, name) => code == LockedCode || name.None? || name.value == ""
  }

  /** What `getApp` resolves to. */
  datatype GetAppResult =
    | ManualConnected       // `{manualConnected: true, app: null}`, after the pairing window
    | Connected(app: App)   // `{app}`, after asking the pairing window to close

  class Session {
    var appInstance: App?
    var portInstance: Port?
    /** Every transport this session has opened. */
    ghost var acquired: set<Port>

    /**
     * The app and the port are set and cleared together, the app runs over the port,
     * and of all transports ever opened only the current one is still open.
     */
    ghost predicate Valid()
      reads this, acquired
    {
      && (appInstance == null <==> portInstance == null)
      && (appInstance != null ==> appInstance.transport == portInstance)
      && (portInstance != null ==> portInstance in acquired)
      && (forall p :: p in acquired ==> (p.isOpen <==> p == portInstance))
    }

    constructor ()
      ensures Valid()
      ensures appInstance == null && portInstance == null && acquired == {}
    {
      appInstance := null;
      portInstance := null;
      acquired := {};
    }

    /** Two transports are never open at the same time. */
    lemma AtMostOneOpenPort(p: Port, q: Port)
      requires Valid()
      requires p in acquired && q in acquired && p.isOpen && q.isOpen
      ensures p == q
    {
    }

    /**
     * `getApp`. `transportAvailable` is whether `Transport.create()` succeeds, asked only
     * when no app is cached; `probe` is the outcome of the liveness race.
     */
    method GetApp(transportAvailable: bool, probe: Probe) returns (r: GetAppResult)
      requires Valid()
      modifies this, acquired
      ensures Valid()
      // nothing is cached and no transport can be opened: the session stays empty
      ensures old(appInstance) == null && !transportAvailable ==>
                r == ManualConnected && appInstance == null && portInstance == null && acquired == old(acquired)
      // a stale probe tears the session down and closes its transport
      ensures (old(appInstance) != null || transportAvailable) && IsStale(probe) ==>
                && r == ManualConnected && appInstance == null && portInstance == null
                && (forall p :: p in acquired ==> !p.isOpen)
      // a healthy probe keeps a cached app, or keeps the app over a fresh transport
      ensures (old(appInstance) != null || transportAvailable) && !IsStale(probe) ==>
                appInstance != null && r == Connected(appInstance)
      ensures old(appInstance) != null ==> acquired == old(acquired)
      ensures old(appInstance) != null && !IsStale(probe) ==>
                appInstance == old(appInstance) && portInstance == old(portInstance)
      // a transport opened by this call is a new one, never one opened before
      ensures old(appInstance) == null && portInstance != null ==>
                fresh(portInstance) && acquired == old(acquired) + {portInstance}
      ensures old(acquired) <= acquired && fresh(acquired - old(acquired))
      // an empty session with a transport available opens exactly one; no call opens more
      ensures old(appInstance) == null && transportAvailable ==> |acquired - old(acquired)| == 1
      ensures |acquired - old(acquired)| <= 1
      ensures r.Connected? ==> r.app == appInstance
    {
      var app: App;
      if appInstance == null {
        if transportAvailable {
          var transport := new Port.Open();
          app := new App(transport);
          portInstance := transport;
          appInstance := app;
          acquired := acquired + {transport};
          assert acquired - old(acquired) == {transport};
        } else {
          return ManualConnected;
        }
      } else {
        app := appInstance;
      }
      if IsStale(probe) {
        portInstance.Close();
        portInstance := null;
        appInstance := null;
        return ManualConnected;
      }
      return Connected(app);
    }

    /** `checkLedgerConnect`: the app `getApp` settles on, or null. */
    method CheckLedgerConnect(transportAvailable: bool, probe: Probe) returns (ledgerApp: App?)
      requires Valid()
      modifies this, acquired
      ensures Valid()
      ensures ledgerApp == appInstance
      ensures ledgerApp == null <==> (old(appInstance) == null && !transportAvailable) || IsStale(probe)
      // a cached app under a healthy probe is the one returned
      ensures old(appInstance) != null && !IsStale(probe) ==> ledgerApp == old(appInstance)
      // a stale probe leaves no transport open
      ensures (old(appInstance) != null || transportAvailable) && IsStale(probe) ==>
                forall p :: p in acquired ==> !p.isOpen
      ensures old(acquired) <= acquired && fresh(acquired - old(acquired))
      // a cached app opens no transport; a transport in use after an empty session is a new one
      ensures old(appInstance) != null ==> acquired == old(acquired)
      ensures old(appInstance) == null && portInstance != null ==> fresh(portInstance)
      ensures old(appInstance) == null && transportAvailable ==> |acquired - old(acquired)| == 1
      ensures |acquired - old(acquired)| <= 1
    {
      var result := GetApp(transportAvailable, probe);
      ledgerApp := if result.Connected? then result.app else null;
    }
  }

  /**
   * A session whose probe times out is emptied and its transport closed; the next
   * healthy call opens a different transport.
   */
  method TimeoutThenReconnect() returns (first: Port, second: Port)
    ensures first != second && !first.isOpen && second.isOpen
  {
    var session := new Session();
    var healthy := Reply("9000", Some("Mina"));
    var r := session.GetApp(true, healthy);
    first := session.portInstance;
    r := session.GetApp(true, Timeout);
    assert r == ManualConnected && session.portInstance == null;
    r := session.GetApp(true, healthy);
    second := session.portInstance;
  }
}
