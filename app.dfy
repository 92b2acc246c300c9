/** syncwave_app.py: the list of target devices the server tab keeps (adding
    with validation, removing) and the choice of servers `start_server`
    starts for each streaming mode. Widgets, message boxes and the server
    log are not modelled: an add reports its outcome as a value, and a
    started server is recorded as the arguments its thread is given. */
module App {
  import opened Wrappers
  import opened Decimal

  /** An (ip, port) entry of `target_devices`. */
  datatype Target = Target(ip: string, port: int)

  /** The three values of the streaming-mode radio buttons. */
  datatype Mode = Single | Broadcast | Multi

  /** The arguments one server thread is started with: `run_server(ip, port,
      compression, broadcast)`. */
  datatype Launch = Launch(ip: string, port: int, compression: bool, broadcast: bool)

  /** Why `add_target_device` turned an entry down. */
  datatype Rejection = MissingInput | InvalidPort | Duplicate

  const BroadcastAddress: string := "255.255.255.255"

  /** What `add_target_device` makes of the two input fields: both are
      stripped; an empty one is missing input; a port that `int()` cannot
      read or that lies outside 1..65535 is invalid; an entry already in the
      list is a duplicate; anything else is the entry to append. */
  function CheckNewTarget(ipText: string, portText: string, targets: seq<Target>): (r: Result<Target, Rejection>)
    ensures r == Err(MissingInput) <==> Strip(ipText) == [] || Strip(portText) == []
    ensures r == Err(InvalidPort) <==> (Strip(ipText) != [] && Strip(portText) != [] &&
      (ParseInt(Strip(portText)).None? || !(1 <= ParseInt(Strip(portText)).value <= 65535)))
    ensures r.Ok? ==> r.value.ip == Strip(ipText) && Some(r.value.port) == ParseInt(Strip(portText))
    ensures r.Ok? ==> r.value !in targets && WellFormed(r.value)
    ensures r == Err(Duplicate) ==> Target(Strip(ipText), ParseInt(Strip(portText)).value) in targets
  {
    var ip := Strip(ipText);
    var portStr := Strip(portText);
    if ip == [] || portStr == [] then Err(MissingInput)
    else
      match ParseInt(portStr)
      case None => Err(InvalidPort)
      case Some(port) =>
        if port < 1 || port > 65535 then Err(InvalidPort)
        else if Target(ip, port) in targets then Err(Duplicate)
        else
          StripTwice(ipText);
          Ok(Target(ip, port))
  }

  /** An entry `add_target_device` can produce: a non-empty stripped ip and a
      port in 1..65535. */
  predicate WellFormed(t: Target) {
    t.ip != [] && Strip(t.ip) == t.ip && 1 <= t.port <= 65535
  }

  /** The list `add_target_device` and `remove_target_device` maintain:
      well-formed entries, none twice. */
  predicate ValidTargets(ts: seq<Target>) {
    (forall k :: 0 <= k < |ts| ==> WellFormed(ts[k])) &&
    (forall i, j :: 0 <= i < j < |ts| ==> ts[i] != ts[j])
  }

  /** The position of the first occurrence of x in s. */
  function IndexOf<T(==)>(s: seq<T>, x: T): (i: nat)
    requires x in s
    ensures i < |s| && s[i] == x && x !in s[..i]
  {
    if s[0] == x then 0
    else
      var i := 1 + IndexOf(s[1..], x);
      assert s[..i] == [s[0]] + s[1..][..i - 1];
      i
  }

  /** Python's `list.remove(x)` on a list that holds x: the first occurrence
      goes, everything else stays in order. */
  function RemoveFirst<T(==)>(s: seq<T>, x: T): (r: seq<T>)
    requires x in s
    ensures |r| == |s| - 1
    ensures multiset(r) == multiset(s) - multiset{x}
  {
    var i := IndexOf(s, x);
    assert s == s[..i] + [x] + s[i + 1..];
    s[..i] + s[i + 1..]
  }

  /** A successful add keeps the list valid. */
  lemma AddKeepsValid(ipText: string, portText: string, ts: seq<Target>)
    requires ValidTargets(ts) && CheckNewTarget(ipText, portText, ts).Ok?
    ensures ValidTargets(ts + [CheckNewTarget(ipText, portText, ts).value])
  {
    var t := CheckNewTarget(ipText, portText, ts).value;
    assert t !in ts && WellFormed(t);
    var s := ts + [t];
    forall k | 0 <= k < |s| ensures WellFormed(s[k]) {
      if k < |ts| {
        assert s[k] == ts[k];
      }
    }
    forall i, j | 0 <= i < j < |s| ensures s[i] != s[j] {
      assert s[i] == ts[i];
      if j == |ts| {
        assert ts[i] in ts;
      } else {
        assert s[j] == ts[j];
      }
    }
  }

  /** The same entry cannot be added twice: repeating a successful add is
      turned down as a duplicate. */
  lemma AddTwiceIsDuplicate(ipText: string, portText: string, ts: seq<Target>)
    requires CheckNewTarget(ipText, portText, ts).Ok?
    ensures CheckNewTarget(ipText, portText, ts + [CheckNewTarget(ipText, portText, ts).value]) == Err(Duplicate)
  {
    var t := CheckNewTarget(ipText, portText, ts).value;
    assert t in ts + [t];
  }

  /** Where each remaining entry came from: those before the removed
      occurrence keep their place, the later ones move up by one. */
  lemma RemoveFirstAt<T>(s: seq<T>, x: T, k: nat)
    requires x in s && k < |s| - 1
    ensures RemoveFirst(s, x)[k] == if k < IndexOf(s, x) then s[k] else s[k + 1]
  {
  }

  /** Removing an entry of a valid list keeps it valid and leaves the entry
      out of the list altogether. */
  lemma RemoveKeepsValid(ts: seq<Target>, t: Target)
    requires ValidTargets(ts) && t in ts
    ensures ValidTargets(RemoveFirst(ts, t)) && t !in RemoveFirst(ts, t)
  {
    var i := IndexOf(ts, t);
    var r := RemoveFirst(ts, t);
    forall k | 0 <= k < |r| ensures WellFormed(r[k]) && r[k] != t {
      RemoveFirstAt(ts, t, k);
    }
    forall a, b | 0 <= a < b < |r| ensures r[a] != r[b] {
      RemoveFirstAt(ts, t, a);
      RemoveFirstAt(ts, t, b);
    }
  }

  /** Removing what was just appended restores the list. */
  lemma RemoveUndoesAdd(ts: seq<Target>, t: Target)
    requires t !in ts
    ensures RemoveFirst(ts + [t], t) == ts
  {
    var s := ts + [t];
    assert s[..|ts|] == ts;
    assert forall k :: 0 <= k < |ts| ==> s[k] == ts[k];
  }

  /** The servers `start_server` starts, or None where it starts none: a
      port field `int()` cannot read (single and broadcast), or an empty
      list (multi). Single mode takes the ip field as it stands and does not
      range-check the port; broadcast sends to 255.255.255.255; multi starts
      one server per listed target, in list order. */
  function LaunchPlan(mode: Mode, ipText: string, portText: string, compression: bool, targets: seq<Target>)
    : (r: Option<seq<Launch>>)
    ensures r.Some? ==> forall k :: 0 <= k < |r.value| ==>
      r.value[k].compression == compression && (r.value[k].broadcast <==> mode == Broadcast)
    ensures mode == Multi ==> (r.None? <==> targets == [])
    ensures mode == Multi && r.Some? ==> |r.value| == |targets| && forall k :: 0 <= k < |targets| ==>
      r.value[k].ip == targets[k].ip && r.value[k].port == targets[k].port
    ensures mode != Multi ==> (r.None? <==> ParseInt(portText).None?)
    ensures mode != Multi && r.Some? ==> |r.value| == 1 && Some(r.value[0].port) == ParseInt(portText)
    ensures mode == Single && r.Some? ==> r.value[0].ip == ipText
    ensures mode == Broadcast && r.Some? ==> r.value[0].ip == BroadcastAddress
  {
    match mode
    case Single =>
      (match ParseInt(portText)
       case None => None
       case Some(port) => Some([Launch(ipText, port, compression, false)]))
    case Broadcast =>
      (match ParseInt(portText)
       case None => None
       case Some(port) => Some([Launch(BroadcastAddress, port, compression, true)]))
    case Multi =>
      if targets == [] then None else Some(MultiLaunches(targets, compression))
  }

  /** One non-broadcast launch per target, in list order. */
  function MultiLaunches(targets: seq<Target>, compression: bool): (r: seq<Launch>)
    ensures |r| == |targets|
    ensures forall k :: 0 <= k < |targets| ==>
      r[k] == Launch(targets[k].ip, targets[k].port, compression, false)
  {
    if targets == [] then []
    else
      var t := targets[|targets| - 1];
      MultiLaunches(targets[..|targets| - 1], compression) + [Launch(t.ip, t.port, compression, false)]
  }

  /** A target added to the list is streamed to last in multi mode, after
      the targets already there. */
  lemma MultiPlanAfterAdd(ts: seq<Target>, t: Target, ipText: string, portText: string, compression: bool)
    ensures LaunchPlan(Multi, ipText, portText, compression, ts + [t])
      == Some(MultiLaunches(ts, compression) + [Launch(t.ip, t.port, compression, false)])
  {
    assert (ts + [t])[..|ts|] == ts;
  }

  /** In single mode, port text that `int()` reads as port starts exactly
      one server, to that ip and port, without broadcast. With
      ParseShowNat, this covers a port typed as its decimal digits. */
  lemma SinglePlanOfTypedPort(ipText: string, portText: string, port: int, compression: bool, targets: seq<Target>)
    requires ParseInt(portText) == Some(port)
    ensures LaunchPlan(Single, ipText, portText, compression, targets)
      == Some([Launch(ipText, port, compression, false)])
  {
  }

  /** The application state the server tab's logic touches. */
  class SyncWaveApp {
    /** `self.target_devices`. */
    var targetDevices: seq<Target>
    /** `self.server_running`. */
    var serverRunning: bool
    /** Every server thread started so far, in start order. Threads are
        daemons that `stop_server` does not stop, so none is ever removed. */
    var launches: seq<Launch>
    /** RUST_CORE_AVAILABLE: whether `import syncwave_core` succeeded. */
    const rustCoreAvailable: bool

    ghost predicate Valid()
      reads this
    {
      ValidTargets(targetDevices)
    }

    constructor (coreAvailable: bool)
      ensures Valid() && targetDevices == [] && !serverRunning && launches == []
      ensures rustCoreAvailable == coreAvailable
    {
      targetDevices := [];
      serverRunning := false;
      launches := [];
      rustCoreAvailable := coreAvailable;
    }

    /** `add_target_device` with the two entry fields' text. */
    method AddTargetDevice(ipText: string, portText: string) returns (outcome: Result<Target, Rejection>)
      requires Valid()
      modifies this
      ensures Valid()
      ensures outcome == CheckNewTarget(ipText, portText, old(targetDevices))
      ensures outcome.Ok? ==> targetDevices == old(targetDevices) + [outcome.value]
      ensures outcome.Err? ==> targetDevices == old(targetDevices)
      ensures serverRunning == old(serverRunning) && launches == old(launches)
    {
      var ip := Strip(ipText);
      var portStr := Strip(portText);
      if ip == [] || portStr == [] {
        return Err(MissingInput);
      }
      var parsed := ParseInt(portStr);
      if parsed.None? || parsed.value < 1 || parsed.value > 65535 {
        return Err(InvalidPort);
      }
      var t := Target(ip, parsed.value);
      if t in targetDevices {
        return Err(Duplicate);
      }
      outcome := CheckNewTarget(ipText, portText, targetDevices);
      AddKeepsValid(ipText, portText, targetDevices);
      targetDevices := targetDevices + [t];
    }

    /** `remove_target_device(ip, port, frame)`: removes the entry when it is
        listed, and does nothing otherwise. */
    method RemoveTargetDevice(ip: string, port: int)
      requires Valid()
      modifies this
      ensures Valid() && Target(ip, port) !in targetDevices
      ensures Target(ip, port) in old(targetDevices) ==>
        targetDevices == RemoveFirst(old(targetDevices), Target(ip, port))
      ensures Target(ip, port) !in old(targetDevices) ==> targetDevices == old(targetDevices)
      ensures serverRunning == old(serverRunning) && launches == old(launches)
    {
      var t := Target(ip, port);
      if t in targetDevices {
        RemoveKeepsValid(targetDevices, t);
        targetDevices := RemoveFirst(targetDevices, t);
      }
    }

    /** `start_server` with the mode, the two entry fields' text and the
        compression switch. Without the Rust core, or when LaunchPlan has
        nothing to start, nothing changes; otherwise the planned servers are
        started in order and the server counts as running. */
    method StartServer(mode: Mode, ipText: string, portText: string, compression: bool)
      requires Valid()
      modifies this
      ensures Valid() && targetDevices == old(targetDevices)
      ensures var plan := LaunchPlan(mode, ipText, portText, compression, targetDevices);
        if !rustCoreAvailable || plan.None? then
          serverRunning == old(serverRunning) && launches == old(launches)
        else
          serverRunning && launches == old(launches) + plan.value
    {
      if !rustCoreAvailable {
        return;
      }
      match mode {
      case Single =>
        var port := ParseInt(portText);
        if port.None? {
          return;
        }
        launches := launches + [Launch(ipText, port.value, compression, false)];
      case Broadcast =>
        var port := ParseInt(portText);
        if port.None? {
          return;
        }
        launches := launches + [Launch(BroadcastAddress, port.value, compression, true)];
      case Multi =>
        if targetDevices == [] {
          return;
        }
        StartEach(compression);
      }
      serverRunning := true;
    }

    /** The multi-target branch's loop: one server per listed target, in
        list order. */
    method StartEach(compression: bool)
      modifies this
      ensures launches == old(launches) + MultiLaunches(targetDevices, compression)
      ensures targetDevices == old(targetDevices) && serverRunning == old(serverRunning)
    {
      var i := 0;
      while i < |targetDevices|
        invariant 0 <= i <= |targetDevices|
        invariant launches == old(launches) + MultiLaunches(targetDevices[..i], compression)
        invariant targetDevices == old(targetDevices) && serverRunning == old(serverRunning)
      {
        assert targetDevices[..i + 1][..i] == targetDevices[..i];
        var t := targetDevices[i];
        launches := launches + [Launch(t.ip, t.port, compression, false)];
        i := i + 1;
      }
      assert targetDevices[..i] == targetDevices;
    }


    /** `stop_server`: the server counts as stopped; its threads keep
        running. */
    method StopServer()
      modifies this
      ensures !serverRunning
      ensures targetDevices == old(targetDevices) && launches == old(launches)
    {
      serverRunning := false;
    }

    /** `toggle_server`. */
    method ToggleServer(mode: Mode, ipText: string, portText: string, compression: bool)
      requires Valid()
      modifies this
      ensures Valid() && targetDevices == old(targetDevices)
      ensures old(serverRunning) ==> !serverRunning && launches == old(launches)
      ensures !old(serverRunning) ==>
        var plan := LaunchPlan(mode, ipText, portText, compression, targetDevices);
        if !rustCoreAvailable || plan.None? then !serverRunning && launches == old(launches)
        else serverRunning && launches == old(launches) + plan.value
    {
      if !serverRunning {
        StartServer(mode, ipText, portText, compression);
      } else {
        StopServer();
      }
    }
  }
}
