/** The application delegate's control-plane state and the operations that drive the provider:
    choosing the socket, reloading the hub list, toggling a hub or the automatic mode, and adding
    a hub by address. Every call on the control channel is recorded, in order, in `trace`. */
module Delegate {
  import opened Wrappers
  import opened Text
  import opened Nodes
  import opened Pass

  // ---------------------------------------------------------------------------------------------
  // The socket path
  // ---------------------------------------------------------------------------------------------

  const SocketPathGlobal := "/var/run/golemu/gu-provider.socket"
  const SocketPathUserHome := "Library/Application Support/network.Golem.Golem-Unlimited/run/gu-provider.socket"

  /** The per-user socket under the home directory. */
  function UserSocketPath(home: string): string
  {
    home + "/" + SocketPathUserHome
  }

  /** `configureUnixSocketPath`'s choice: the per-user socket when it exists, else the global one. */
  function SocketPath(home: string, existsInHome: bool): (path: string)
    ensures path == SocketPathGlobal <==> !existsInHome
    ensures existsInHome ==> |path| > |home| && path[..|home|] == home
  {
    assert |UserSocketPath(home)| > |SocketPathGlobal|;
    if existsInHome then UserSocketPath(home) else SocketPathGlobal
  }

  /** The global socket is used exactly when there is none under the home directory; the
      per-user one is always the home directory followed by the fixed suffix. */
  lemma SocketPathChoice(home: string, existsInHome: bool)
    ensures SocketPath(home, existsInHome) == SocketPathGlobal <==> !existsInHome
    ensures existsInHome ==>
              var path := SocketPath(home, existsInHome);
              |path| == |home| + 1 + |SocketPathUserHome| && path[..|home|] == home
              && path[|home| + 1..] == SocketPathUserHome
  {
    var user := UserSocketPath(home);
    assert |user| == |home| + 1 + |SocketPathUserHome|;
    assert user[..|home|] == home;
    assert user[|home| + 1..] == SocketPathUserHome;
  }

  // ---------------------------------------------------------------------------------------------
  // The two-call toggles
  // ---------------------------------------------------------------------------------------------

  /** `checkBoxPressed`: save or forget the hub under its id, then connect or disconnect its
      address, both chosen by the state of the box. */
  function NodeToggleCalls(node: NodeInfo, id: string, on: bool): (calls: seq<Call>)
    ensures |calls| == 2 && calls[1].verb == "POST"
    ensures (calls[0].verb == "PUT" <==> on) && (calls[0].verb == "DELETE" <==> !on)
    ensures calls[0].body == Encoded(node.address, node.name)
  {
    [ Call(if on then "PUT" else "DELETE", "/nodes/" + id, Encoded(node.address, node.name)),
      Call("POST", "/connections/" + (if on then "connect" else "disconnect") + "?save=1",
           Literal("[\"" + node.address + "\"]")) ]
  }

  /** `autoConnectPressed`: switch the automatic mode on or off, then save the connection mode. */
  function AutoToggleCalls(on: bool): (calls: seq<Call>)
    ensures |calls| == 2 && calls[0].query == "/nodes/auto" && calls[1].verb == "PUT"
    ensures (calls[0].verb == "PUT" <==> on) && (calls[0].verb == "DELETE" <==> !on)
  {
    [ Call(if on then "PUT" else "DELETE", "/nodes/auto", Literal("{}")),
      Call("PUT", "/connections/mode/" + (if on then "auto" else "manual") + "?save=1", Literal("")) ]
  }

  /** One predicate chooses both calls of a hub toggle: switching on saves the hub and connects
      to it, switching off forgets it and disconnects; both address the same hub. */
  lemma NodeToggleChosenTogether(node: NodeInfo, id: string, on: bool)
    ensures var calls := NodeToggleCalls(node, id, on);
            && |calls| == 2
            && calls[0].query == "/nodes/" + id && calls[0].body == Encoded(node.address, node.name)
            && calls[1].verb == "POST" && calls[1].body == Literal("[\"" + node.address + "\"]")
            && (calls[0].verb == "PUT" <==> on) && (calls[0].verb == "DELETE" <==> !on)
            && (calls[1].query == "/connections/connect?save=1" <==> on)
            && (calls[1].query == "/connections/disconnect?save=1" <==> !on)
  {
    assert "/connections/" + "connect" + "?save=1" == "/connections/connect?save=1";
    assert "/connections/" + "disconnect" + "?save=1" == "/connections/disconnect?save=1";
  }

  /** Likewise for the automatic mode. */
  lemma AutoToggleChosenTogether(on: bool)
    ensures var calls := AutoToggleCalls(on);
            && |calls| == 2
            && calls[0].query == "/nodes/auto" && calls[0].body == Literal("{}")
            && calls[1].verb == "PUT" && calls[1].body == Literal("")
            && (calls[0].verb == "PUT" <==> on) && (calls[0].verb == "DELETE" <==> !on)
            && (calls[1].query == "/connections/mode/auto?save=1" <==> on)
            && (calls[1].query == "/connections/mode/manual?save=1" <==> !on)
  {
    assert "/connections/mode/" + "auto" + "?save=1" == "/connections/mode/auto?save=1";
    assert "/connections/mode/" + "manual" + "?save=1" == "/connections/mode/manual?save=1";
  }

  /** Switching a hub off mirrors switching it on: the same resources in the same order, with the
      opposite actions. */
  lemma NodeToggleMirror(node: NodeInfo, id: string)
    ensures var on := NodeToggleCalls(node, id, true); var off := NodeToggleCalls(node, id, false);
            && on[0].query == off[0].query && on[0].body == off[0].body
            && on[1].body == off[1].body && on[0].verb != off[0].verb && on[1].query != off[1].query
  {
    NodeToggleChosenTogether(node, id, true);
    NodeToggleChosenTogether(node, id, false);
  }

  // ---------------------------------------------------------------------------------------------
  // Adding a hub by address
  // ---------------------------------------------------------------------------------------------

  /** What the `URLSession` task hands to its completion handler for `http://<ip>:<port>/node_id/`:
      the body, if any, the HTTP status code, and whether an error was reported. */
  datatype HubReply = HubReply(data: Option<string>, statusCode: int, failed: bool)

  /** An error shown to the user, or the hub to save and connect to. */
  datatype AddOutcome = Rejected(message: string) | Added(nodeId: string, hostName: string)

  function HubAddress(ip: string, port: string): string
  {
    ip + ":" + port
  }

  function HubUrl(ip: string, port: string): string
  {
    "http://" + HubAddress(ip, port) + "/node_id/"
  }

  /** `addEnteredHub`'s decision on the hub's reply. */
  function AddHubOutcome(ip: string, port: string, reply: HubReply): (outcome: AddOutcome)
    ensures outcome.Added? ==> && reply.data.Some? && !reply.failed && reply.statusCode == 200
                               && outcome.nodeId != [] && ' ' !in outcome.nodeId
                               && outcome.hostName != [] && ' ' !in outcome.hostName
  {
    if reply.data.None? || reply.failed then Rejected("Cannot connect to " + HubAddress(ip, port))
    else
      var tokens := HubTokens(reply.data.value);
      if tokens.None? || reply.statusCode != 200 then Rejected("Bad answer from " + HubUrl(ip, port) + ".")
      else Added(tokens.value.0, tokens.value.1)
  }

  /** The calls `addEnteredHub` makes: none for a rejected reply; otherwise save the hub under
      its id with its address and host name, then connect to the address. */
  function AddHubCalls(ip: string, port: string, outcome: AddOutcome): (calls: seq<Call>)
    ensures |calls| == if outcome.Added? then 2 else 0
    ensures outcome.Added? ==> calls[0].verb == "PUT" && calls[1].verb == "POST"
                               && calls[1].query == "/connections/connect?save=1"
  {
    match outcome
    case Rejected(_) => []
    case Added(id, host) =>
      [ Call("PUT", "/nodes/" + id, Encoded(HubAddress(ip, port), host)),
        Call("POST", "/connections/connect?save=1", Literal("[\"" + HubAddress(ip, port) + "\"]")) ]
  }

  /** A hub is added exactly when it answered without error, with status 200, and with two
      space-separated tokens, which become its id and host name. */
  lemma AddHubAccepted(ip: string, port: string, reply: HubReply)
    ensures AddHubOutcome(ip, port, reply).Added?
        <==> reply.data.Some? && !reply.failed && reply.statusCode == 200 && HubTokens(reply.data.value).Some?
    ensures AddHubOutcome(ip, port, reply).Added? ==>
              var outcome := AddHubOutcome(ip, port, reply);
              Some((outcome.nodeId, outcome.hostName)) == HubTokens(reply.data.value)
  {
  }

  /** The two error messages: no answer at all, or an answer that is not an id and a name. */
  lemma AddHubRejected(ip: string, port: string, reply: HubReply)
    ensures reply.data.None? || reply.failed ==>
              AddHubOutcome(ip, port, reply) == Rejected("Cannot connect to " + ip + ":" + port)
    ensures reply.data.Some? && !reply.failed && (reply.statusCode != 200 || HubTokens(reply.data.value).None?) ==>
              AddHubOutcome(ip, port, reply) == Rejected("Bad answer from http://" + ip + ":" + port + "/node_id/.")
  {
    assert "http://" + HubAddress(ip, port) + "/node_id/" + "." == "http://" + ip + ":" + port + "/node_id/.";
  }

  /** A well-formed reply `<id> <name>`, spaces around allowed, adds hub `id` named `name` at the
      entered address with exactly the two calls, in order. */
  lemma AddHubOfWellFormedReply(ip: string, port: string, p: string, id: string, m: string, host: string, r: string)
    requires AllChar(p, ' ') && AllChar(m, ' ') && m != [] && AllChar(r, ' ')
    requires id != [] && ' ' !in id && host != [] && ' ' !in host
    ensures var outcome := AddHubOutcome(ip, port, HubReply(Some(p + id + m + host + r), 200, false));
            && outcome == Added(id, host)
            && AddHubCalls(ip, port, outcome)
               == [ Call("PUT", "/nodes/" + id, Encoded(ip + ":" + port, host)),
                    Call("POST", "/connections/connect?save=1", Literal("[\"" + ip + ":" + port + "\"]")) ]
  {
    HubTokensOfPair(p, id, m, host, r);
    assert "[\"" + HubAddress(ip, port) + "\"]" == "[\"" + ip + ":" + port + "\"]";
  }

  // ---------------------------------------------------------------------------------------------
  // The delegate
  // ---------------------------------------------------------------------------------------------

  /** The parts of `AppDelegate` that the control-plane operations read and write. `autoMode`
      stands for the state of the automatic-mode button; `trace` records every call made on the
      control channel. */
  class AppDelegate {
    var unixSocketPath: string
    var nodes: seq<NodeInfo>
    var nodeSelected: seq<bool>
    var autoMode: bool
    ghost var trace: seq<Call>

    constructor ()
      ensures unixSocketPath == "" && nodes == [] && nodeSelected == [] && !autoMode && trace == []
    {
      unixSocketPath := "";
      nodes := [];
      nodeSelected := [];
      autoMode := false;
      trace := [];
    }

    /** One `getHTTPBodyFromUnixSocket` call; `ch` gives the channel's answer. */
    method Fetch(ch: Channel, call: Call) returns (answer: Option<string>)
      modifies this`trace
      ensures trace == old(trace) + [call] && answer == ch(call)
    {
      trace := trace + [call];
      answer := ch(call);
    }

    /** A hub's status fetched, and its flag recorded when the status arrives: the step both
        loops of `reloadHubList` take for each hub. */
    method FetchStatus(ch: Channel, id: string) returns (status: Option<string>)
      modifies this`nodeSelected, this`trace
      ensures status == ch(GetStatus(id)) && trace == old(trace) + [GetStatus(id)]
      ensures status.None? ==> nodeSelected == old(nodeSelected)
      ensures status.Some? ==> nodeSelected == old(nodeSelected) + [DataToBool(status.value).value]
    {
      status := Fetch(ch, GetStatus(id));
      if status.Some? {
        nodeSelected := nodeSelected + [DataToBool(status.value).value];
      }
    }

    /** `configureUnixSocketPath`; `fileExists` stands for the file system. */
    method ConfigureUnixSocketPath(home: string, fileExists: string -> bool)
      modifies this`unixSocketPath
      ensures unixSocketPath == SocketPath(home, fileExists(UserSocketPath(home)))
    {
      var localPathInHome := home + "/" + SocketPathUserHome;
      unixSocketPath := if fileExists(localPathInHome) then localPathInHome else SocketPathGlobal;
    }

    /** `checkBoxPressed` for the box in `row`, whose new state is `on`. */
    method CheckBoxPressed(ch: Channel, row: int, on: bool)
      requires 0 <= row < |nodes| && NodeId(nodes[row].description).Some?
      modifies this`trace
      ensures trace == old(trace) + NodeToggleCalls(nodes[row], NodeId(nodes[row].description).value, on)
    {
      var node := nodes[row];
      var encodedBody := Encoded(node.address, node.name);
      var answer := Fetch(ch, Call(if on then "PUT" else "DELETE", "/nodes/" + NodeId(node.description).value, encodedBody));
      answer := Fetch(ch, Call("POST", "/connections/" + (if on then "connect" else "disconnect") + "?save=1",
                               Literal("[\"" + node.address + "\"]")));
    }

    /** `autoConnectPressed` with the button's new state `on`: AppKit has already switched the
        button when the action runs, and the action then makes the two calls. */
    method AutoConnectPressed(ch: Channel, on: bool)
      modifies this`autoMode, this`trace
      ensures autoMode == on
      ensures trace == old(trace) + AutoToggleCalls(on)
    {
      autoMode := on;
      var answer := Fetch(ch, Call(if on then "PUT" else "DELETE", "/nodes/auto", Literal("{}")));
      answer := Fetch(ch, Call("PUT", "/connections/mode/" + (if on then "auto" else "manual") + "?save=1", Literal("")));
    }

    /** `addEnteredHub` for the entered address, given the hub's reply. */
    method AddEnteredHub(ch: Channel, ip: string, port: string, reply: HubReply) returns (outcome: AddOutcome)
      modifies this`trace
      ensures outcome == AddHubOutcome(ip, port, reply)
      ensures trace == old(trace) + AddHubCalls(ip, port, outcome)
    {
      var ipPort := ip + ":" + port;
      var urlString := "http://" + ipPort + "/node_id/";
      if reply.data.None? || reply.failed {
        return Rejected("Cannot connect to " + ipPort);
      }
      var nodeIdAndHostName := Split(reply.data.value, ' ');
      if |nodeIdAndHostName| != 2 || reply.statusCode != 200 {
        return Rejected("Bad answer from " + urlString + ".");
      }
      var encodedBody := Encoded(ipPort, nodeIdAndHostName[1]);
      var answer := Fetch(ch, Call("PUT", "/nodes/" + nodeIdAndHostName[0], encodedBody));
      answer := Fetch(ch, Call("POST", "/connections/connect?save=1", Literal("[\"" + ipPort + "\"]")));
      outcome := Added(nodeIdAndHostName[0], nodeIdAndHostName[1]);
    }

    /** `reloadHubList`: fetch the mode, the LAN hubs and their statuses, then the saved hubs not
        yet listed and their statuses, giving up at the first fetch that fails. */
    method ReloadHubList(ch: Channel, dec: Decoder)
      requires Decodes(ch, dec)
      modifies this`nodes, this`nodeSelected, this`autoMode, this`trace
      ensures trace == old(trace) + PassCalls(ch, dec)
      ensures autoMode == PassAuto(ch, old(autoMode))
      ensures nodes == PassNodes(ch, dec, old(nodes))
      ensures nodeSelected == PassSelected(ch, dec, old(nodeSelected))
    {
      ghost var start := trace;
      var auto := Fetch(ch, GetAuto);
      if auto.None? {
        ReloadExitAtAuto(ch, dec, start, trace, nodes, nodeSelected);
        return;
      }
      autoMode := DataToBool(auto.value).GetOr(false);
      ReloadLanHubs(ch, dec, start, nodes, nodeSelected);
    }

    /** `reloadHubList` once the mode has arrived: the LAN hubs and their statuses, then the
        saved hubs. `start`, `nodes0` and `selected0` are the state before the pass. */
    method ReloadLanHubs(ch: Channel, dec: Decoder, ghost start: seq<Call>, ghost nodes0: seq<NodeInfo>,
                         ghost selected0: seq<bool>)
      requires Decodes(ch, dec) && ch(GetAuto).Some? && trace == start + [GetAuto]
      requires nodes == nodes0 && nodeSelected == selected0
      modifies this`nodes, this`nodeSelected, this`trace
      ensures trace == start + PassCalls(ch, dec)
      ensures nodes == PassNodes(ch, dec, nodes0) && nodeSelected == PassSelected(ch, dec, selected0)
    {
      var data := Fetch(ch, GetLan);
      if data.None? {
        ReloadExitAtLan(ch, dec, start, trace, nodes0, selected0);
        return;
      }
      nodes := dec.lan(data.value).value;
      nodeSelected := [];
      assert nodes == Lan(ch, dec);
      var all, complete := FetchLanStatuses(ch);
      if !complete {
        ReloadExitInLan(ch, dec, start, trace, nodes0, nodes, selected0, nodeSelected);
        return;
      }
      ReloadSavedHubs(ch, dec, all, start, nodes0, selected0);
    }

    /** `reloadHubList` once every LAN hub's status has arrived: the saved hubs not yet listed,
        each followed by its status. */
    method ReloadSavedHubs(ch: Channel, dec: Decoder, all: set<string>, ghost start: seq<Call>,
                           ghost nodes0: seq<NodeInfo>, ghost selected0: seq<bool>)
      requires Decodes(ch, dec) && LanReached(ch) && nodes == Lan(ch, dec)
      requires Answered(ch, StatusCalls(Ids(nodes))) == |StatusCalls(Ids(nodes))|
      requires nodeSelected == Flags(Answers(ch, StatusCalls(Ids(nodes))))
      requires all == Elements(Ids(nodes))
      requires trace == start + [GetAuto] + [GetLan] + Issued(ch, StatusCalls(Ids(nodes)))
      modifies this`nodes, this`nodeSelected, this`trace
      ensures trace == start + PassCalls(ch, dec)
      ensures nodes == PassNodes(ch, dec, nodes0) && nodeSelected == PassSelected(ch, dec, selected0)
    {
      var savedData := Fetch(ch, GetSaved);
      if savedData.None? {
        ReloadExitAtSaved(ch, dec, start, trace, nodes0, nodes, selected0, nodeSelected);
        return;
      }
      var saved := dec.saved(savedData.value).value;
      ghost var lan, lanFlags := nodes, nodeSelected;
      AppendSavedHubs(ch, saved, all);
      ReloadExitAtEnd(ch, dec, start, trace, nodes0, lan, nodes, selected0, lanFlags, nodeSelected, saved, all);
    }

    /** One turn of the loop over the LAN hubs: the status of hub `id` is fetched and recorded,
        and a failed fetch ends the loop. */
    method LanHubStep(ch: Channel, ghost ids: seq<string>, i: nat, id: string, ghost all: set<string>,
                      ghost trace0: seq<Call>) returns (stop: bool)
      requires i < |ids| && ids[i] == id
      requires LanProgress(ch, ids, i, all, nodeSelected, trace0, trace)
      modifies this`nodeSelected, this`trace
      ensures var calls := StatusCalls(ids);
              stop ==> && Answered(ch, calls) != |calls|
                       && nodeSelected == Flags(Answers(ch, calls))
                       && trace == trace0 + Issued(ch, calls)
      ensures !stop ==> LanProgress(ch, ids, i + 1, all + {id}, nodeSelected, trace0, trace)
    {
      ghost var selected1, trace1 := nodeSelected, trace;
      var status := FetchStatus(ch, id);
      if status.None? {
        LanStop(ch, ids, i, all, selected1, trace0, trace1);
        return true;
      }
      LanStep(ch, ids, i, all, selected1, trace0, trace1, status.value);
      return false;
    }

    /** The loop of `reloadHubList` over the LAN hubs: fetch each hub's status and record it,
        until a fetch fails; `all` collects the ids of the hubs whose status arrived. */
    method FetchLanStatuses(ch: Channel) returns (all: set<string>, complete: bool)
      requires nodeSelected == []
      requires forall i :: 0 <= i < |nodes| && i <= Answered(ch, StatusCalls(Ids(nodes)))
                           ==> NodeId(nodes[i].description).Some?
      modifies this`nodeSelected, this`trace
      ensures var calls := StatusCalls(Ids(nodes));
              && complete == (Answered(ch, calls) == |calls|)
              && nodeSelected == Flags(Answers(ch, calls))
              && trace == old(trace) + Issued(ch, calls)
              && (complete ==> all == Elements(Ids(nodes)))
    {
      all := {};
      var lan := nodes;
      ghost var ids := Ids(lan);
      ghost var calls := StatusCalls(ids);
      ghost var reached := Answered(ch, calls);
      ghost var trace0 := trace;
      assert calls[..0] == [] && ids[..0] == [];
      var i := 0;
      while i < |lan|
        invariant 0 <= i <= |lan| && lan == nodes
        invariant forall j :: 0 <= j < |lan| && j <= reached ==> NodeId(lan[j].description).Some?
        invariant LanProgress(ch, ids, i, all, nodeSelected, trace0, trace)
      {
        AnsweredOfPrefix(ch, calls, i);
        var id := NodeId(lan[i].description).value;
        assert ids[i] == id;
        var stop := LanHubStep(ch, ids, i, id, all, trace0);
        if stop {
          return all, false;
        }
        all := all + {id};
        i := i + 1;
      }
      LanDone(ch, ids, all, nodeSelected, trace0, trace);
      return all, true;
    }

    /** One turn of the loop over the saved hubs: a hub whose id was seen is skipped; any other
        is appended and its status fetched, and a failed fetch ends the loop. */
    method SavedHubStep(ch: Channel, saved: seq<SavedNodeInfo>, seen: set<string>, k: nat,
                        ghost appended: seq<SavedNodeInfo>, all: set<string>,
                        ghost nodes0: seq<NodeInfo>, ghost selected0: seq<bool>, ghost trace0: seq<Call>)
        returns (stop: bool)
      requires k < |saved|
      requires SavedProgress(ch, saved, seen, k, appended, all, nodes0, nodes, selected0, nodeSelected, trace0, trace)
      modifies this`nodes, this`nodeSelected, this`trace
      ensures var extra := SavedOnly(saved, seen); var calls := StatusCalls(SavedIds(extra));
              stop ==> && nodes == nodes0 + Synthesized(extra[..|Issued(ch, calls)|])
                       && nodeSelected == selected0 + Flags(Answers(ch, calls))
                       && trace == trace0 + Issued(ch, calls)
      ensures var node := saved[k];
              !stop ==> if node.nodeId in all
                        then SavedProgress(ch, saved, seen, k + 1, appended, all,
                                           nodes0, nodes, selected0, nodeSelected, trace0, trace)
                        else SavedProgress(ch, saved, seen, k + 1, appended + [node], all + {node.nodeId},
                                           nodes0, nodes, selected0, nodeSelected, trace0, trace)
    {
      var node := saved[k];
      if node.nodeId in all {
        SavedSkipState(ch, saved, seen, k, appended, all, nodes0, nodes, selected0, nodeSelected, trace0, trace);
        return false;
      }
      ghost var nodes1, selected1, trace1 := nodes, nodeSelected, trace;
      nodes := nodes + [NodeInfo(node.name, node.address, "node_id=" + node.nodeId)];
      var status := FetchStatus(ch, node.nodeId);
      if status.None? {
        SavedStopState(ch, saved, seen, k, appended, all, nodes0, nodes1, selected0, selected1, trace0, trace1);
        return true;
      }
      SavedAppendState(ch, saved, seen, k, appended, all, nodes0, nodes1, selected0, selected1, trace0, trace1,
                       status.value);
      return false;
    }

    /** The loop of `reloadHubList` over the saved hubs: append each one whose id is not in
        `seen` nor already appended, then fetch its status and record it, until a fetch fails. */
    method AppendSavedHubs(ch: Channel, saved: seq<SavedNodeInfo>, seen: set<string>)
      modifies this`nodes, this`nodeSelected, this`trace
      ensures var extra := SavedOnly(saved, seen); var calls := StatusCalls(SavedIds(extra));
              && nodes == old(nodes) + Synthesized(extra[..|Issued(ch, calls)|])
              && nodeSelected == old(nodeSelected) + Flags(Answers(ch, calls))
              && trace == old(trace) + Issued(ch, calls)
    {
      var all := seen;
      ghost var appended: seq<SavedNodeInfo> := [];
      ghost var nodes0, selected0, trace0 := nodes, nodeSelected, trace;
      assert saved[..0] == [];
      var k := 0;
      while k < |saved|
        invariant SavedProgress(ch, saved, seen, k, appended, all, nodes0, nodes, selected0, nodeSelected, trace0, trace)
      {
        var stop := SavedHubStep(ch, saved, seen, k, appended, all, nodes0, selected0, trace0);
        if stop {
          return;
        }
        if saved[k].nodeId !in all {
          appended := appended + [saved[k]];
          all := all + {saved[k].nodeId};
        }
        k := k + 1;
      }
      SavedDoneState(ch, saved, seen, appended, all, nodes0, nodes, selected0, nodeSelected, trace0, trace);
    }
  }

  // ---------------------------------------------------------------------------------------------
  // Steps of the reload proof
  // ---------------------------------------------------------------------------------------------

  /** The state `reloadHubList` leaves at each of its exits: `start`, `nodes0` and `selected0`
      are the state before the pass, the other parameters the state at the exit. */
  lemma ReloadExitAtAuto(ch: Channel, dec: Decoder, start: seq<Call>, trace: seq<Call>,
                         nodes0: seq<NodeInfo>, selected0: seq<bool>)
    requires ch(GetAuto).None? && trace == start + [GetAuto]
    ensures trace == start + PassCalls(ch, dec)
    ensures nodes0 == PassNodes(ch, dec, nodes0) && selected0 == PassSelected(ch, dec, selected0)
  {
    PassCallsCases(ch, dec);
  }

  lemma ReloadExitAtLan(ch: Channel, dec: Decoder, start: seq<Call>, trace: seq<Call>,
                        nodes0: seq<NodeInfo>, selected0: seq<bool>)
    requires ch(GetAuto).Some? && ch(GetLan).None? && trace == start + [GetAuto] + [GetLan]
    ensures trace == start + PassCalls(ch, dec)
    ensures nodes0 == PassNodes(ch, dec, nodes0) && selected0 == PassSelected(ch, dec, selected0)
  {
    PassCallsCases(ch, dec);
    Extend(start, [GetAuto], [GetLan]);
  }

  lemma ReloadExitInLan(ch: Channel, dec: Decoder, start: seq<Call>, trace: seq<Call>,
                        nodes0: seq<NodeInfo>, nodes: seq<NodeInfo>,
                        selected0: seq<bool>, selected: seq<bool>)
    requires LanReached(ch) && nodes == Lan(ch, dec)
    requires Answered(ch, StatusCalls(Ids(nodes))) != |StatusCalls(Ids(nodes))|
    requires selected == Flags(Answers(ch, StatusCalls(Ids(nodes))))
    requires trace == start + [GetAuto] + [GetLan] + Issued(ch, StatusCalls(Ids(nodes)))
    ensures trace == start + PassCalls(ch, dec)
    ensures nodes == PassNodes(ch, dec, nodes0) && selected == PassSelected(ch, dec, selected0)
  {
    var lc := LanCalls(ch, dec);
    PassCallsCases(ch, dec);
    assert Issued(ch, lc) == lc[..Answered(ch, lc) + 1];
    LanExitShape(start, Issued(ch, lc));
  }

  lemma LanExitShape(start: seq<Call>, issued: seq<Call>)
    ensures start + [GetAuto] + [GetLan] + issued == start + ([GetAuto, GetLan] + issued)
  {
    Extend(start, [GetAuto], [GetLan]);
    Extend(start, [GetAuto, GetLan], issued);
  }

  lemma ReloadExitAtSaved(ch: Channel, dec: Decoder, start: seq<Call>, trace: seq<Call>,
                          nodes0: seq<NodeInfo>, nodes: seq<NodeInfo>,
                          selected0: seq<bool>, selected: seq<bool>)
    requires LanReached(ch) && nodes == Lan(ch, dec)
    requires Answered(ch, StatusCalls(Ids(nodes))) == |StatusCalls(Ids(nodes))| && ch(GetSaved).None?
    requires selected == Flags(Answers(ch, StatusCalls(Ids(nodes))))
    requires trace == start + [GetAuto] + [GetLan] + Issued(ch, StatusCalls(Ids(nodes))) + [GetSaved]
    ensures trace == start + PassCalls(ch, dec)
    ensures nodes == PassNodes(ch, dec, nodes0) && selected == PassSelected(ch, dec, selected0)
  {
    var lc := LanCalls(ch, dec);
    PassCallsCases(ch, dec);
    assert Issued(ch, lc) == lc[..|lc|] == lc;
    SavedExitShape(start, lc);
  }

  lemma SavedExitShape(start: seq<Call>, lanCalls: seq<Call>)
    ensures start + [GetAuto] + [GetLan] + lanCalls + [GetSaved] == start + ([GetAuto, GetLan] + lanCalls + [GetSaved])
  {
    Extend(start, [GetAuto], [GetLan]);
    Extend(start, [GetAuto, GetLan], lanCalls);
    Extend(start, [GetAuto, GetLan] + lanCalls, [GetSaved]);
  }

  lemma ReloadExitAtEnd(ch: Channel, dec: Decoder, start: seq<Call>, trace: seq<Call>,
                        nodes0: seq<NodeInfo>, lan: seq<NodeInfo>, nodes: seq<NodeInfo>,
                        selected0: seq<bool>, lanFlags: seq<bool>, selected: seq<bool>,
                        saved: seq<SavedNodeInfo>, all: set<string>)
    requires LanReached(ch) && lan == Lan(ch, dec)
    requires Answered(ch, StatusCalls(Ids(lan))) == |StatusCalls(Ids(lan))| && ch(GetSaved).Some?
    requires dec.saved(ch(GetSaved).value) == Some(saved) && all == Elements(Ids(lan))
    requires lanFlags == Flags(Answers(ch, StatusCalls(Ids(lan))))
    requires var extra := SavedOnly(saved, all); var calls := StatusCalls(SavedIds(extra));
             && nodes == lan + Synthesized(extra[..|Issued(ch, calls)|])
             && selected == lanFlags + Flags(Answers(ch, calls))
             && trace == start + [GetAuto] + [GetLan] + Issued(ch, StatusCalls(Ids(lan))) + [GetSaved]
                         + Issued(ch, calls)
    ensures trace == start + PassCalls(ch, dec)
    ensures nodes == PassNodes(ch, dec, nodes0) && selected == PassSelected(ch, dec, selected0)
  {
    var lc := LanCalls(ch, dec);
    var ec := ExtraCalls(ch, dec);
    assert saved == Saved(ch, dec);
    PassCallsCases(ch, dec);
    assert Issued(ch, lc) == lc[..|lc|] == lc;
    TraceShape(start, lc, Issued(ch, ec));
    FlagsConcat(Answers(ch, lc), Answers(ch, ec));
  }

  /** The trace of a pass that reaches the saved hubs, regrouped as the plan is. */
  lemma TraceShape(start: seq<Call>, lanCalls: seq<Call>, extraCalls: seq<Call>)
    ensures start + [GetAuto] + [GetLan] + lanCalls + [GetSaved] + extraCalls
         == start + ([GetAuto, GetLan] + lanCalls + [GetSaved] + extraCalls)
  {
    var front := [GetAuto, GetLan] + lanCalls + [GetSaved];
    assert start + [GetAuto] + [GetLan] + lanCalls + [GetSaved] == start + front;
  }

  /** The state of the loop over the LAN hubs after `i` of them: each status fetch so far was
      made and answered, its flag recorded and its id collected. */
  ghost predicate LanProgress(ch: Channel, ids: seq<string>, i: nat, all: set<string>, selected: seq<bool>,
                              trace0: seq<Call>, trace: seq<Call>)
  {
    && i <= |ids|
    && Answered(ch, StatusCalls(ids)[..i]) == i
    && selected == Flags(Answers(ch, StatusCalls(ids)[..i]))
    && all == Elements(ids[..i])
    && trace == trace0 + StatusCalls(ids)[..i]
  }

  /** An answered status fetch adds its call, its flag and its id at the end. */
  lemma LanStep(ch: Channel, ids: seq<string>, i: nat, all: set<string>, selected: seq<bool>,
                trace0: seq<Call>, trace: seq<Call>, answer: string)
    requires LanProgress(ch, ids, i, all, selected, trace0, trace)
    requires i < |ids| && ch(GetStatus(ids[i])) == Some(answer)
    ensures LanProgress(ch, ids, i + 1, all + {ids[i]}, selected + [DataToBool(answer).value],
                        trace0, trace + [GetStatus(ids[i])])
  {
    var calls := StatusCalls(ids);
    assert calls[i] == GetStatus(ids[i]);
    TakeSnoc(calls, i);
    TakeSnoc(ids, i);
    AnswersSnoc(ch, calls[..i], calls[i]);
    FlagsSnoc(Answers(ch, calls[..i]), answer);
    ElementsSnoc(ids[..i], ids[i]);
    Regroup(trace0, calls[..i], [calls[i]]);
  }

  /** A failed status fetch ends the loop: the run of calls stops at it. */
  lemma LanStop(ch: Channel, ids: seq<string>, i: nat, all: set<string>, selected: seq<bool>,
                trace0: seq<Call>, trace: seq<Call>)
    requires LanProgress(ch, ids, i, all, selected, trace0, trace)
    requires i < |ids| && ch(GetStatus(ids[i])).None?
    ensures var calls := StatusCalls(ids);
            && Answered(ch, calls) != |calls|
            && selected == Flags(Answers(ch, calls))
            && trace + [GetStatus(ids[i])] == trace0 + Issued(ch, calls)
  {
    var calls := StatusCalls(ids);
    assert calls[i] == GetStatus(ids[i]);
    TakeSnoc(calls, i);
    StopsAt(ch, calls, i);
    Regroup(trace0, calls[..i], [calls[i]]);
  }

  /** With every LAN hub visited, every status fetch was made and answered. */
  lemma LanDone(ch: Channel, ids: seq<string>, all: set<string>, selected: seq<bool>,
                trace0: seq<Call>, trace: seq<Call>)
    requires LanProgress(ch, ids, |ids|, all, selected, trace0, trace)
    ensures var calls := StatusCalls(ids);
            && Answered(ch, calls) == |calls|
            && selected == Flags(Answers(ch, calls))
            && trace == trace0 + Issued(ch, calls)
            && all == Elements(ids)
  {
    var calls := StatusCalls(ids);
    assert calls[..|ids|] == calls && ids[..|ids|] == ids;
  }

  /** A prefix one element longer. */
  lemma TakeSnoc<T>(s: seq<T>, i: nat)
    requires i < |s|
    ensures s[..i + 1] == s[..i] + [s[i]]
  {
  }

  /** Regrouping a sequence as elements are added to it. */
  lemma Regroup<T>(before: seq<T>, done: seq<T>, next: seq<T>)
    ensures before + done + next == before + (done + next)
  {
  }

  /** Appending the saved hub `node` adds its record, its id and its status call at the end. */
  lemma SavedStepCalls(before: seq<SavedNodeInfo>, node: SavedNodeInfo)
    ensures Synthesized(before + [node]) == Synthesized(before) + [Synthesize(node)]
    ensures SavedIds(before + [node]) == SavedIds(before) + [node.nodeId]
    ensures StatusCalls(SavedIds(before + [node])) == StatusCalls(SavedIds(before)) + [GetStatus(node.nodeId)]
  {
    SynthesizedSnoc(before, node);
    StatusCallsSnoc(before, node);
  }

  /** The state of the loop over the saved hubs after `k` of them: `appended` are the hubs not
      seen before, `all` every id seen so far, and each of them was appended, fetched and
      answered. */
  ghost predicate SavedProgress(ch: Channel, saved: seq<SavedNodeInfo>, seen: set<string>, k: nat,
                                appended: seq<SavedNodeInfo>, all: set<string>,
                                nodes0: seq<NodeInfo>, nodes: seq<NodeInfo>, selected0: seq<bool>, selected: seq<bool>,
                                trace0: seq<Call>, trace: seq<Call>)
  {
    && k <= |saved|
    && appended == SavedOnly(saved[..k], seen)
    && all == seen + Elements(SavedIds(appended))
    && Answered(ch, StatusCalls(SavedIds(appended))) == |appended|
    && nodes == nodes0 + Synthesized(appended)
    && selected == selected0 + Flags(Answers(ch, StatusCalls(SavedIds(appended))))
    && trace == trace0 + StatusCalls(SavedIds(appended))
  }

  /** A saved hub whose id was seen is skipped. */
  lemma SavedSkipState(ch: Channel, saved: seq<SavedNodeInfo>, seen: set<string>, k: nat,
                       appended: seq<SavedNodeInfo>, all: set<string>,
                       nodes0: seq<NodeInfo>, nodes: seq<NodeInfo>, selected0: seq<bool>, selected: seq<bool>,
                       trace0: seq<Call>, trace: seq<Call>)
    requires SavedProgress(ch, saved, seen, k, appended, all, nodes0, nodes, selected0, selected, trace0, trace)
    requires k < |saved| && saved[k].nodeId in all
    ensures SavedProgress(ch, saved, seen, k + 1, appended, all, nodes0, nodes, selected0, selected, trace0, trace)
  {
    SavedOnlyStep(saved, seen, k);
  }

  /** A saved hub whose id was not seen is appended, and its status `answer` recorded. */
  lemma SavedAppendState(ch: Channel, saved: seq<SavedNodeInfo>, seen: set<string>, k: nat,
                         appended: seq<SavedNodeInfo>, all: set<string>,
                         nodes0: seq<NodeInfo>, nodes: seq<NodeInfo>, selected0: seq<bool>, selected: seq<bool>,
                         trace0: seq<Call>, trace: seq<Call>, answer: string)
    requires SavedProgress(ch, saved, seen, k, appended, all, nodes0, nodes, selected0, selected, trace0, trace)
    requires k < |saved| && saved[k].nodeId !in all
    requires ch(GetStatus(saved[k].nodeId)) == Some(answer)
    ensures SavedProgress(ch, saved, seen, k + 1, appended + [saved[k]], all + {saved[k].nodeId},
                          nodes0, nodes + [Synthesize(saved[k])], selected0, selected + [DataToBool(answer).value],
                          trace0, trace + [GetStatus(saved[k].nodeId)])
  {
    var node := saved[k];
    SavedOnlyStep(saved, seen, k);
    SavedAppendLists(appended, node, nodes0, trace0);
    SavedAppendAnswer(ch, appended, node, answer, selected0, seen);
  }

  /** Appending the saved hub `node` extends the hub list and the calls made. */
  lemma SavedAppendLists(before: seq<SavedNodeInfo>, node: SavedNodeInfo, nodes0: seq<NodeInfo>, trace0: seq<Call>)
    ensures nodes0 + Synthesized(before) + [Synthesize(node)] == nodes0 + Synthesized(before + [node])
    ensures trace0 + StatusCalls(SavedIds(before)) + [GetStatus(node.nodeId)]
         == trace0 + StatusCalls(SavedIds(before + [node]))
  {
    SavedStepCalls(before, node);
    Regroup(nodes0, Synthesized(before), [Synthesize(node)]);
    Regroup(trace0, StatusCalls(SavedIds(before)), [GetStatus(node.nodeId)]);
  }

  /** The answered status of the appended saved hub `node` extends the answers, the flags and
      the ids seen. */
  lemma SavedAppendAnswer(ch: Channel, before: seq<SavedNodeInfo>, node: SavedNodeInfo, answer: string,
                          selected0: seq<bool>, seen: set<string>)
    requires Answered(ch, StatusCalls(SavedIds(before))) == |before|
    requires ch(GetStatus(node.nodeId)) == Some(answer)
    ensures Answered(ch, StatusCalls(SavedIds(before + [node]))) == |before + [node]|
    ensures selected0 + Flags(Answers(ch, StatusCalls(SavedIds(before)))) + [DataToBool(answer).value]
         == selected0 + Flags(Answers(ch, StatusCalls(SavedIds(before + [node]))))
    ensures seen + Elements(SavedIds(before)) + {node.nodeId} == seen + Elements(SavedIds(before + [node]))
  {
    var answers := Answers(ch, StatusCalls(SavedIds(before)));
    SavedStepAnswered(ch, before, answers, node, answer);
    Regroup(selected0, Flags(answers), [DataToBool(answer).value]);
  }

  /** When the status fetch of an appended saved hub fails, the loop ends in its final state. */
  lemma SavedStopState(ch: Channel, saved: seq<SavedNodeInfo>, seen: set<string>, k: nat,
                       appended: seq<SavedNodeInfo>, all: set<string>,
                       nodes0: seq<NodeInfo>, nodes: seq<NodeInfo>, selected0: seq<bool>, selected: seq<bool>,
                       trace0: seq<Call>, trace: seq<Call>)
    requires SavedProgress(ch, saved, seen, k, appended, all, nodes0, nodes, selected0, selected, trace0, trace)
    requires k < |saved| && saved[k].nodeId !in all
    requires ch(GetStatus(saved[k].nodeId)).None?
    ensures var extra := SavedOnly(saved, seen); var calls := StatusCalls(SavedIds(extra));
            && nodes + [Synthesize(saved[k])] == nodes0 + Synthesized(extra[..|Issued(ch, calls)|])
            && selected == selected0 + Flags(Answers(ch, calls))
            && trace + [GetStatus(saved[k].nodeId)] == trace0 + Issued(ch, calls)
  {
    var node := saved[k];
    SavedOnlyStep(saved, seen, k);
    SavedStops(ch, saved, seen, k, appended, node);
    Regroup(nodes0, Synthesized(appended), [Synthesize(node)]);
    Regroup(trace0, StatusCalls(SavedIds(appended)), [GetStatus(node.nodeId)]);
  }

  /** When every saved hub has been visited, the loop ends in its final state. */
  lemma SavedDoneState(ch: Channel, saved: seq<SavedNodeInfo>, seen: set<string>,
                       appended: seq<SavedNodeInfo>, all: set<string>,
                       nodes0: seq<NodeInfo>, nodes: seq<NodeInfo>, selected0: seq<bool>, selected: seq<bool>,
                       trace0: seq<Call>, trace: seq<Call>)
    requires SavedProgress(ch, saved, seen, |saved|, appended, all, nodes0, nodes, selected0, selected, trace0, trace)
    ensures var extra := SavedOnly(saved, seen); var calls := StatusCalls(SavedIds(extra));
            && nodes == nodes0 + Synthesized(extra[..|Issued(ch, calls)|])
            && selected == selected0 + Flags(Answers(ch, calls))
            && trace == trace0 + Issued(ch, calls)
  {
    assert saved[..|saved|] == saved;
    SavedAllAnswered(ch, appended);
  }

  /** An answered status fetch of the appended hub `node` adds its answer and its flag at the end. */
  lemma SavedStepAnswered(ch: Channel, before: seq<SavedNodeInfo>, answers: seq<string>, node: SavedNodeInfo,
                          answer: string)
    requires answers == Answers(ch, StatusCalls(SavedIds(before))) && |answers| == |before|
    requires ch(GetStatus(node.nodeId)) == Some(answer)
    ensures answers + [answer] == Answers(ch, StatusCalls(SavedIds(before + [node])))
    ensures |answers + [answer]| == |before + [node]|
    ensures Flags(answers + [answer]) == Flags(answers) + [DataToBool(answer).value]
    ensures Elements(SavedIds(before + [node])) == Elements(SavedIds(before)) + {node.nodeId}
  {
    StatusCallsSnoc(before, node);
    AnswersSnoc(ch, StatusCalls(SavedIds(before)), GetStatus(node.nodeId));
    FlagsSnoc(answers, answer);
    ElementsSnoc(SavedIds(before), node.nodeId);
  }

  /** Regrouping the trace as calls are added to it. */
  lemma Extend(before: seq<Call>, done: seq<Call>, next: seq<Call>)
    ensures before + done + next == before + (done + next)
  {
  }

  /** Calls answered at the front of a run are answered in the whole run. */
  lemma AnsweredOfPrefix(ch: Channel, calls: seq<Call>, i: nat)
    requires i <= |calls| && Answered(ch, calls[..i]) == i
    ensures Answered(ch, calls) >= i
  {
    assert calls == calls[..i] + calls[i..];
    AnsweredConcat(ch, calls[..i], calls[i..]);
  }

  lemma FlagsSnoc(answers: seq<string>, answer: string)
    ensures Flags(answers + [answer]) == Flags(answers) + [DataToBool(answer).value]
  {
    var all := answers + [answer];
    FlagsAt(all, answers, answer);
    var l := Flags(all);
    var r := Flags(answers) + [DataToBool(answer).value];
    assert |l| == |r|;
    forall k | 0 <= k < |l| ensures l[k] == r[k] {
      if k < |answers| {
        assert r[k] == Flags(answers)[k];
      } else {
        assert r[k] == DataToBool(answer).value;
      }
    }
  }

  lemma FlagsAt(all: seq<string>, answers: seq<string>, answer: string)
    requires all == answers + [answer]
    ensures forall k | 0 <= k < |answers| :: Flags(all)[k] == Flags(answers)[k]
    ensures Flags(all)[|answers|] == DataToBool(answer).value
  {
    assert forall k | 0 <= k < |answers| :: all[k] == answers[k];
  }

  lemma ElementsSnoc(ids: seq<string>, id: string)
    ensures Elements(ids + [id]) == Elements(ids) + {id}
  {
  }

  lemma SynthesizedSnoc(saved: seq<SavedNodeInfo>, node: SavedNodeInfo)
    ensures Synthesized(saved + [node]) == Synthesized(saved) + [Synthesize(node)]
  {
  }

  lemma StatusCallsSnoc(saved: seq<SavedNodeInfo>, node: SavedNodeInfo)
    ensures SavedIds(saved + [node]) == SavedIds(saved) + [node.nodeId]
    ensures StatusCalls(SavedIds(saved + [node])) == StatusCalls(SavedIds(saved)) + [GetStatus(node.nodeId)]
  {
    assert SavedIds(saved + [node]) == SavedIds(saved) + [node.nodeId];
  }

  /** One step of the loop over the saved hubs. */
  lemma SavedOnlyStep(saved: seq<SavedNodeInfo>, seen: set<string>, k: nat)
    requires k < |saved|
    ensures SavedOnly(saved[..k + 1], seen)
         == if saved[k].nodeId in seen + Elements(SavedIds(SavedOnly(saved[..k], seen)))
            then SavedOnly(saved[..k], seen)
            else SavedOnly(saved[..k], seen) + [saved[k]]
  {
    assert saved[..k + 1][..k] == saved[..k];
  }

  /** When the status fetch of the saved hub `node` fails, the calls made, the hubs appended and
      the answers recorded all end with it. */
  lemma SavedStops(ch: Channel, saved: seq<SavedNodeInfo>, seen: set<string>, k: nat,
                   before: seq<SavedNodeInfo>, node: SavedNodeInfo)
    requires k < |saved|
    requires SavedOnly(saved[..k + 1], seen) == before + [node]
    requires Answered(ch, StatusCalls(SavedIds(before))) == |before|
    requires ch(GetStatus(node.nodeId)).None?
    ensures var extra := SavedOnly(saved, seen); var calls := StatusCalls(SavedIds(extra));
            && Issued(ch, calls) == StatusCalls(SavedIds(before)) + [GetStatus(node.nodeId)]
            && Synthesized(extra[..|Issued(ch, calls)|]) == Synthesized(before) + [Synthesize(node)]
            && Answers(ch, calls) == Answers(ch, StatusCalls(SavedIds(before)))
  {
    var extra := SavedOnly(saved, seen);
    SavedOnlyPrefix(saved, seen, k + 1);
    PrefixOfExtra(extra, before, node);
    StopsAt(ch, StatusCalls(SavedIds(extra)), |before|);
  }

  /** When every status fetch of the saved hubs is answered, all of them were made and all the
      hubs appended. */
  lemma SavedAllAnswered(ch: Channel, extra: seq<SavedNodeInfo>)
    requires Answered(ch, StatusCalls(SavedIds(extra))) == |extra|
    ensures Issued(ch, StatusCalls(SavedIds(extra))) == StatusCalls(SavedIds(extra))
    ensures extra[..|Issued(ch, StatusCalls(SavedIds(extra)))|] == extra
  {
    var calls := StatusCalls(SavedIds(extra));
    assert calls[..|calls|] == calls;
  }

  lemma FlagsConcat(a: seq<string>, b: seq<string>)
    ensures Flags(a) + Flags(b) == Flags(a + b)
  {
    var all := a + b;
    var l := Flags(a) + Flags(b);
    var r := Flags(all);
    assert |l| == |r|;
    forall k | 0 <= k < |l| ensures l[k] == r[k] {
      if k < |a| {
        assert l[k] == Flags(a)[k];
        assert all[k] == a[k];
      } else {
        assert l[k] == Flags(b)[k - |a|];
        assert all[k] == b[k - |a|];
      }
    }
  }

  /** A saved hub appended by the loop sits at its place among all the hubs the pass appends,
      and so does its status call. */
  lemma PrefixOfExtra(extra: seq<SavedNodeInfo>, before: seq<SavedNodeInfo>, node: SavedNodeInfo)
    requires |before| < |extra| && extra[..|before| + 1] == before + [node]
    ensures var calls := StatusCalls(SavedIds(extra));
            && calls[..|before|] == StatusCalls(SavedIds(before))
            && calls[|before|] == GetStatus(node.nodeId)
            && calls[..|before| + 1] == StatusCalls(SavedIds(before)) + [GetStatus(node.nodeId)]
            && Synthesized(extra[..|before| + 1]) == Synthesized(before) + [Synthesize(node)]
  {
    var n := |before|;
    assert extra[..n] == before by {
      assert extra[..n] == extra[..n + 1][..n];
    }
    assert extra[n] == extra[..n + 1][n];
    var calls := StatusCalls(SavedIds(extra));
    assert calls[..n] == StatusCalls(SavedIds(before));
    assert calls[..n + 1] == calls[..n] + [calls[n]];
    SynthesizedSnoc(before, node);
  }

}