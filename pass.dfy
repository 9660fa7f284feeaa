/** The calls the menu-bar client makes on the provider's control channel, and what one
    `reloadHubList` pass does: a fixed order of fetches that ends at the first one that fails, and
    the rule that merges the hubs found on the LAN with the saved ones. */
module Pass {
  import opened Wrappers
  import opened Text
  import opened Nodes

  // ---------------------------------------------------------------------------------------------
  // Calls on the control channel
  // ---------------------------------------------------------------------------------------------

  /** The body of a request: literal text, or the JSON encoding of an `AddressAndHostName`
      record, which the model keeps as the pair it encodes. */
  datatype Body = Literal(text: string) | Encoded(address: string, hostName: string)

  /** One `getHTTPBodyFromUnixSocket` call: method, query and body. */
  datatype Call = Call(verb: string, query: string, body: Body)

  /** The provider as the client sees it: the body of the answer to a call, or nothing when the
      exchange failed. */
  type Channel = Call -> Option<string>

  const GetAuto := Call("GET", "/nodes/auto", Literal(""))
  const GetLan := Call("GET", "/lan/list", Literal(""))
  const GetSaved := Call("GET", "/nodes?saved", Literal(""))

  function GetStatus(id: string): Call
  {
    Call("GET", "/nodes/" + id, Literal(""))
  }

  function StatusCalls(ids: seq<string>): seq<Call>
  {
    seq(|ids|, k requires 0 <= k < |ids| => GetStatus(ids[k]))
  }

  // ---------------------------------------------------------------------------------------------
  // A sequence of fetches that stops at the first failure
  // ---------------------------------------------------------------------------------------------

  /** How many calls, from the front, get an answer before the first that does not. */
  function Answered(ch: Channel, calls: seq<Call>): (n: nat)
    ensures n <= |calls|
    decreases |calls|
  {
    if calls == [] || ch(calls[0]).None? then 0 else 1 + Answered(ch, calls[1..])
  }

  /** The calls counted are exactly those answered before the first that is not. */
  lemma {:induction false} AnsweredIs(ch: Channel, calls: seq<Call>)
    ensures forall k :: 0 <= k < Answered(ch, calls) ==> ch(calls[k]).Some?
    ensures Answered(ch, calls) < |calls| ==> ch(calls[Answered(ch, calls)]).None?
    decreases |calls|
  {
    if calls != [] && ch(calls[0]).Some? {
      AnsweredIs(ch, calls[1..]);
      forall k | 0 <= k < Answered(ch, calls) ensures ch(calls[k]).Some? {
        if k > 0 {
          assert calls[k] == calls[1..][k - 1];
        }
      }
      if Answered(ch, calls) < |calls| {
        assert calls[Answered(ch, calls)] == calls[1..][Answered(ch, calls[1..])];
      }
    }
  }

  /** The calls actually made when each is made only after the previous one was answered: up to
      and including the first that fails. */
  function Issued(ch: Channel, calls: seq<Call>): seq<Call>
  {
    var n := Answered(ch, calls);
    calls[..if n < |calls| then n + 1 else n]
  }

  /** The calls made are a prefix of those planned; every one but the last was answered, and
      the run is cut short only by a call that failed. */
  lemma IssuedStops(ch: Channel, calls: seq<Call>)
    ensures var issued := Issued(ch, calls);
            |issued| <= |calls| && issued == calls[..|issued|]
            && (forall k :: 0 <= k < |issued| - 1 ==> ch(issued[k]).Some?)
            && (|issued| < |calls| ==> issued != [] && ch(issued[|issued| - 1]).None?)
            && (|issued| == |calls| <==> Answered(ch, calls) >= |calls| - 1)
  {
    AnsweredIs(ch, calls);
  }

  /** The answers to the calls that were answered, in order. */
  function Answers(ch: Channel, calls: seq<Call>): (r: seq<string>)
    ensures |r| == Answered(ch, calls)
  {
    var n := Answered(ch, calls);
    seq(n, k requires 0 <= k < n => ch(calls[k]).GetOr(""))
  }

  /** Each answer is the channel's answer to its call. */
  lemma AnswersAre(ch: Channel, calls: seq<Call>)
    ensures forall k :: 0 <= k < |Answers(ch, calls)| ==> ch(calls[k]) == Some(Answers(ch, calls)[k])
  {
    AnsweredIs(ch, calls);
  }

  /** The selection flags decoded from status answers (`dataToBool(data:)!`). */
  function Flags(answers: seq<string>): seq<bool>
  {
    seq(|answers|, k requires 0 <= k < |answers| => DataToBool(answers[k]).value)
  }

  /** A run of calls answers as far as its first part fails, and otherwise on into the second. */
  lemma {:induction false} AnsweredConcat(ch: Channel, a: seq<Call>, b: seq<Call>)
    ensures Answered(ch, a + b)
         == if Answered(ch, a) < |a| then Answered(ch, a) else |a| + Answered(ch, b)
    decreases |a|
  {
    if a == [] {
      assert a + b == b;
    } else {
      assert (a + b)[0] == a[0];
      assert (a + b)[1..] == a[1..] + b;
      AnsweredConcat(ch, a[1..], b);
    }
  }

  /** The calls made for a run in two parts: the second part is reached only when every call of
      the first is answered. */
  lemma IssuedConcat(ch: Channel, a: seq<Call>, b: seq<Call>)
    ensures Issued(ch, a + b) == if Answered(ch, a) < |a| then Issued(ch, a) else a + Issued(ch, b)
  {
    if Answered(ch, a) < |a| {
      IssuedStopsInFirst(ch, a, b);
    } else {
      IssuedGoesOn(ch, a, b);
    }
  }

  lemma IssuedStopsInFirst(ch: Channel, a: seq<Call>, b: seq<Call>)
    requires Answered(ch, a) < |a|
    ensures Issued(ch, a + b) == Issued(ch, a)
  {
    AnsweredConcat(ch, a, b);
    var n := Answered(ch, a);
    assert (a + b)[..n + 1] == a[..n + 1];
  }

  lemma IssuedGoesOn(ch: Channel, a: seq<Call>, b: seq<Call>)
    requires Answered(ch, a) == |a|
    ensures Issued(ch, a + b) == a + Issued(ch, b)
  {
    AnsweredConcat(ch, a, b);
    var m := Answered(ch, b);
    var j := if m < |b| then m + 1 else m;
    TakeOfConcat(a, b, j);
    assert Issued(ch, b) == b[..j];
    assert Issued(ch, a + b) == (a + b)[..|a| + j];
  }

  /** A prefix reaching into the second part of a concatenation. */
  lemma TakeOfConcat<T>(a: seq<T>, b: seq<T>, j: nat)
    requires j <= |b|
    ensures (a + b)[..|a| + j] == a + b[..j]
  {
  }

  /** The first failure decides everything: the count, the calls made, and the answers read. */
  lemma StopsAt(ch: Channel, calls: seq<Call>, n: nat)
    requires n < |calls| && Answered(ch, calls[..n]) == n && ch(calls[n]).None?
    ensures Answered(ch, calls) == n
    ensures Issued(ch, calls) == calls[..n + 1]
    ensures Answers(ch, calls) == Answers(ch, calls[..n])
  {
    assert calls == calls[..n] + calls[n..];
    AnsweredConcat(ch, calls[..n], calls[n..]);
  }

  /** One more answered call adds its answer at the end. */
  lemma AnswersSnoc(ch: Channel, a: seq<Call>, c: Call)
    requires Answered(ch, a) == |a| && ch(c).Some?
    ensures Answered(ch, a + [c]) == |a| + 1
    ensures Answers(ch, a + [c]) == Answers(ch, a) + [ch(c).value]
  {
    AnsweredConcat(ch, a, [c]);
    SingleCall(ch, c);
    var r := Answers(ch, a + [c]);
    var q := Answers(ch, a);
    forall k | 0 <= k < |a| ensures r[k] == q[k] {
      assert (a + [c])[k] == a[k];
    }
    assert (a + [c])[|a|] == c;
  }

  /** The answers to status fetches are the answers for the ids, in order. */
  lemma AnswersOfStatus(ch: Channel, ids: seq<string>, i: nat)
    requires i < |Answers(ch, StatusCalls(ids))|
    ensures i < |ids| && ch(GetStatus(ids[i])) == Some(Answers(ch, StatusCalls(ids))[i])
  {
    AnswersAre(ch, StatusCalls(ids));
    assert StatusCalls(ids)[i] == GetStatus(ids[i]);
  }

  /** The status of hub `id` was fetched and decodes to `flag`. */
  predicate StatusIs(ch: Channel, id: string, flag: bool)
  {
    ch(GetStatus(id)).Some? && DataToBool(ch(GetStatus(id)).value) == Some(flag)
  }

  // ---------------------------------------------------------------------------------------------
  // The merge rule
  // ---------------------------------------------------------------------------------------------

  function Elements(ids: seq<string>): set<string>
  {
    set id | id in ids
  }

  /** The ids `reloadHubList` uses for the LAN hubs (`node.nodeId()!`); a hub without one never
      gets this far, and the empty placeholder only keeps the function total. */
  function Ids(lan: seq<NodeInfo>): seq<string>
  {
    seq(|lan|, k requires 0 <= k < |lan| => NodeId(lan[k].description).GetOr(""))
  }

  function SavedIds(saved: seq<SavedNodeInfo>): seq<string>
  {
    seq(|saved|, k requires 0 <= k < |saved| => saved[k].nodeId)
  }

  /** The saved hubs `reloadHubList` appends, as its loop over the saved list builds them: each
      one whose id is neither in `seen` nor among those already appended. */
  function SavedOnly(saved: seq<SavedNodeInfo>, seen: set<string>): (kept: seq<SavedNodeInfo>)
    decreases |saved|
  {
    if saved == [] then []
    else
      var kept := SavedOnly(saved[..|saved| - 1], seen);
      var node := saved[|saved| - 1];
      if node.nodeId in seen + Elements(SavedIds(kept)) then kept else kept + [node]
  }

  /** Nothing is appended that the saved list does not hold. */
  lemma {:induction false} SavedOnlyLength(saved: seq<SavedNodeInfo>, seen: set<string>)
    ensures |SavedOnly(saved, seen)| <= |saved|
    decreases |saved|
  {
    if saved != [] {
      SavedOnlyLength(saved[..|saved| - 1], seen);
    }
  }

  /** The reference rule, position by position: a saved hub is kept when its id was not seen and
      no earlier saved hub has it. */
  predicate FirstUnseen(saved: seq<SavedNodeInfo>, seen: set<string>, i: nat)
    requires i < |saved|
  {
    saved[i].nodeId !in seen && saved[i].nodeId !in SavedIds(saved[..i])
  }

  /** The saved hubs that the reference rule keeps, in saved order. */
  function KeepFirstUnseen(saved: seq<SavedNodeInfo>, seen: set<string>): seq<SavedNodeInfo>
    decreases |saved|
  {
    if saved == [] then []
    else
      KeepFirstUnseen(saved[..|saved| - 1], seen)
      + (if FirstUnseen(saved, seen, |saved| - 1) then [saved[|saved| - 1]] else [])
  }

  /** The record `reloadHubList` makes for a saved hub: its id becomes the description
      `node_id=<id>`. */
  function Synthesize(node: SavedNodeInfo): NodeInfo
  {
    NodeInfo(node.name, node.address, "node_id=" + node.nodeId)
  }

  function Synthesized(saved: seq<SavedNodeInfo>): seq<NodeInfo>
  {
    seq(|saved|, k requires 0 <= k < |saved| => Synthesize(saved[k]))
  }

  /** The hub list of a completed pass: the LAN hubs in order, then the saved hubs not yet seen. */
  function Merge(lan: seq<NodeInfo>, saved: seq<SavedNodeInfo>): (merged: seq<NodeInfo>)
    ensures |lan| <= |merged| <= |lan| + |saved| && merged[..|lan|] == lan
  {
    SavedOnlyLength(saved, Elements(Ids(lan)));
    lan + Synthesized(SavedOnly(saved, Elements(Ids(lan))))
  }

  /** The ids appended are the saved ids that were not seen, each once. */
  lemma {:induction false} SavedOnlyIds(saved: seq<SavedNodeInfo>, seen: set<string>, id: string)
    ensures id in SavedIds(SavedOnly(saved, seen)) <==> id !in seen && id in SavedIds(saved)
    decreases |saved|
  {
    if saved != [] {
      var init := saved[..|saved| - 1];
      var node := saved[|saved| - 1];
      var kept := SavedOnly(init, seen);
      SavedOnlyIds(init, seen, id);
      SavedOnlyIds(init, seen, node.nodeId);
      assert SavedIds(saved) == SavedIds(init) + [node.nodeId];
      if node.nodeId !in seen + Elements(SavedIds(kept)) {
        assert SavedIds(kept + [node]) == SavedIds(kept) + [node.nodeId];
      }
    }
  }

  predicate Distinct(ids: seq<string>)
  {
    forall i, j :: 0 <= i < j < |ids| ==> ids[i] != ids[j]
  }

  /** No id is appended twice, and none that was seen. */
  lemma {:induction false} SavedOnlyFresh(saved: seq<SavedNodeInfo>, seen: set<string>)
    ensures Distinct(SavedIds(SavedOnly(saved, seen)))
    ensures forall k :: 0 <= k < |SavedOnly(saved, seen)| ==> SavedOnly(saved, seen)[k].nodeId !in seen
    decreases |saved|
  {
    if saved != [] {
      var init := saved[..|saved| - 1];
      var node := saved[|saved| - 1];
      var kept := SavedOnly(init, seen);
      SavedOnlyFresh(init, seen);
      if node.nodeId !in seen + Elements(SavedIds(kept)) {
        var kept' := kept + [node];
        var ids := SavedIds(kept);
        assert SavedIds(kept') == ids + [node.nodeId];
        forall i | 0 <= i < |ids| ensures ids[i] != node.nodeId {
          assert ids[i] in Elements(ids);
        }
        DistinctSnoc(ids, node.nodeId);
        assert SavedOnly(saved, seen) == kept';
      }
    }
  }

  lemma DistinctSnoc(ids: seq<string>, id: string)
    requires Distinct(ids) && id !in ids
    ensures Distinct(ids + [id])
  {
  }

  /** The loop's rule and the reference rule keep the same saved hubs in the same order. */
  lemma {:induction false} SavedOnlyKeepsFirstUnseen(saved: seq<SavedNodeInfo>, seen: set<string>)
    ensures SavedOnly(saved, seen) == KeepFirstUnseen(saved, seen)
    decreases |saved|
  {
    if saved != [] {
      var init := saved[..|saved| - 1];
      var node := saved[|saved| - 1];
      SavedOnlyKeepsFirstUnseen(init, seen);
      SavedOnlyIds(init, seen, node.nodeId);
      assert saved[..|saved| - 1] == init;
    }
  }

  /** What the loop has appended after the first `k` saved hubs is where the whole list's
      appended hubs start. */
  lemma {:induction false} SavedOnlyPrefix(saved: seq<SavedNodeInfo>, seen: set<string>, k: nat)
    requires k <= |saved|
    ensures var part := SavedOnly(saved[..k], seen);
            |part| <= |SavedOnly(saved, seen)| && part == SavedOnly(saved, seen)[..|part|]
    decreases |saved| - k
  {
    if k < |saved| {
      var init := saved[..|saved| - 1];
      assert init[..k] == saved[..k];
      SavedOnlyPrefix(init, seen, k);
    } else {
      assert saved[..k] == saved;
    }
  }

  /** Every saved id ends up in the merged list, found on the LAN or appended. */
  lemma MergeCovers(lan: seq<NodeInfo>, saved: seq<SavedNodeInfo>, id: string)
    requires id in SavedIds(saved)
    ensures id in Ids(lan) + SavedIds(SavedOnly(saved, Elements(Ids(lan))))
  {
    SavedOnlyIds(saved, Elements(Ids(lan)), id);
  }

  /** Merging keeps ids distinct when the LAN hubs' ids are. */
  lemma MergeDistinct(lan: seq<NodeInfo>, saved: seq<SavedNodeInfo>)
    requires Distinct(Ids(lan))
    ensures Distinct(Ids(lan) + SavedIds(SavedOnly(saved, Elements(Ids(lan)))))
  {
    var lanIds := Ids(lan);
    var extraIds := SavedIds(SavedOnly(saved, Elements(lanIds)));
    SavedOnlyFresh(saved, Elements(lanIds));
    var ids := lanIds + extraIds;
    forall i, j | 0 <= i < j < |ids| ensures ids[i] != ids[j] {
      if j >= |lanIds| {
        assert ids[j] == extraIds[j - |lanIds|];
        if i >= |lanIds| {
          assert ids[i] == extraIds[i - |lanIds|];
        } else {
          assert ids[i] in Elements(lanIds);
        }
      }
    }
  }

  // ---------------------------------------------------------------------------------------------
  // One reloadHubList pass
  // ---------------------------------------------------------------------------------------------

  /** The two `JSONDecoder` decodings the pass applies: the LAN list and the saved list. */
  datatype Decoder = Decoder(lan: string -> Option<seq<NodeInfo>>, saved: string -> Option<seq<SavedNodeInfo>>)

  /** The LAN hubs decoded from the answer to `/lan/list` (empty when that was not reached). */
  function Lan(ch: Channel, dec: Decoder): seq<NodeInfo>
  {
    if ch(GetLan).Some? then dec.lan(ch(GetLan).value).GetOr([]) else []
  }

  function Saved(ch: Channel, dec: Decoder): seq<SavedNodeInfo>
  {
    if ch(GetSaved).Some? then dec.saved(ch(GetSaved).value).GetOr([]) else []
  }

  function LanCalls(ch: Channel, dec: Decoder): seq<Call>
  {
    StatusCalls(Ids(Lan(ch, dec)))
  }

  function Extra(ch: Channel, dec: Decoder): seq<SavedNodeInfo>
  {
    SavedOnly(Saved(ch, dec), Elements(Ids(Lan(ch, dec))))
  }

  function ExtraCalls(ch: Channel, dec: Decoder): seq<Call>
  {
    StatusCalls(SavedIds(Extra(ch, dec)))
  }

  /** Every call the pass would make if all were answered, in order. */
  function Plan(ch: Channel, dec: Decoder): seq<Call>
  {
    [GetAuto, GetLan] + LanCalls(ch, dec) + [GetSaved] + ExtraCalls(ch, dec)
  }

  /** The ids the status fetches use, one per node of a completed pass. */
  function PassIds(ch: Channel, dec: Decoder): seq<string>
  {
    Ids(Lan(ch, dec)) + SavedIds(Extra(ch, dec))
  }

  predicate LanReached(ch: Channel)
  {
    ch(GetAuto).Some? && ch(GetLan).Some?
  }

  predicate SavedReached(ch: Channel, dec: Decoder)
  {
    LanReached(ch) && Answered(ch, LanCalls(ch, dec)) == |LanCalls(ch, dec)| && ch(GetSaved).Some?
  }

  predicate Completed(ch: Channel, dec: Decoder)
  {
    SavedReached(ch, dec) && Answered(ch, ExtraCalls(ch, dec)) == |ExtraCalls(ch, dec)|
  }

  /** What the pass needs in order not to crash: the `try!` decodings succeed once their answers
      arrive, and every LAN hub the loop reaches has an id (`node.nodeId()!`). */
  predicate Decodes(ch: Channel, dec: Decoder)
  {
    && (LanReached(ch) ==> dec.lan(ch(GetLan).value).Some?)
    && (LanReached(ch) ==>
          forall i :: 0 <= i < |Lan(ch, dec)| && i <= Answered(ch, LanCalls(ch, dec))
                      ==> NodeId(Lan(ch, dec)[i].description).Some?)
    && (SavedReached(ch, dec) ==> dec.saved(ch(GetSaved).value).Some?)
  }

  /** The calls the pass makes. */
  function PassCalls(ch: Channel, dec: Decoder): (calls: seq<Call>)
    ensures calls != [] && calls[0] == GetAuto
    ensures |calls| <= |Plan(ch, dec)| && calls == Plan(ch, dec)[..|calls|]
  {
    IssuedStops(ch, Plan(ch, dec));
    Issued(ch, Plan(ch, dec))
  }

  /** The auto-mode switch after the pass: set from `/nodes/auto` once that is answered. */
  function PassAuto(ch: Channel, before: bool): (auto: bool)
    ensures ch(GetAuto).None? ==> auto == before
    ensures ch(GetAuto).Some? ==> (auto <==> TrueIgnoringCase(Trim(ch(GetAuto).value)))
  {
    if ch(GetAuto).Some? then
      DataToBoolTrue(ch(GetAuto).value);
      DataToBool(ch(GetAuto).value).GetOr(false)
    else before
  }

  /** The hub list after the pass: untouched unless `/lan/list` is answered, then the LAN hubs,
      then each saved hub appended just before its own status is fetched. */
  function PassNodes(ch: Channel, dec: Decoder, before: seq<NodeInfo>): (after: seq<NodeInfo>)
    ensures !LanReached(ch) ==> after == before
    ensures LanReached(ch) ==>
              && |Lan(ch, dec)| <= |after| <= |Merge(Lan(ch, dec), Saved(ch, dec))|
              && after == Merge(Lan(ch, dec), Saved(ch, dec))[..|after|]
  {
    var extra := Extra(ch, dec);
    var n := |Issued(ch, ExtraCalls(ch, dec))|;
    assert n <= |extra|;
    assert Synthesized(extra[..n]) == Synthesized(extra)[..n];
    if !LanReached(ch) then before
    else if !SavedReached(ch, dec) then Lan(ch, dec)
    else Lan(ch, dec) + Synthesized(Extra(ch, dec)[..|Issued(ch, ExtraCalls(ch, dec))|])
  }

  /** The selection flags after the pass: one per status fetch that was answered. */
  function PassSelected(ch: Channel, dec: Decoder, before: seq<bool>): (selected: seq<bool>)
    ensures !LanReached(ch) ==> selected == before
    ensures LanReached(ch) ==>
              |selected| == Answered(ch, LanCalls(ch, dec))
                            + (if SavedReached(ch, dec) then Answered(ch, ExtraCalls(ch, dec)) else 0)
  {
    if !LanReached(ch) then before
    else if !SavedReached(ch, dec) then Flags(Answers(ch, LanCalls(ch, dec)))
    else Flags(Answers(ch, LanCalls(ch, dec)) + Answers(ch, ExtraCalls(ch, dec)))
  }

  /** Which calls the pass makes: the fixed order up to and including the first that fails. */
  lemma PassCallsCases(ch: Channel, dec: Decoder)
    ensures ch(GetAuto).None? ==> PassCalls(ch, dec) == [GetAuto]
    ensures ch(GetAuto).Some? && ch(GetLan).None? ==> PassCalls(ch, dec) == [GetAuto, GetLan]
    ensures var lc := LanCalls(ch, dec); var n := Answered(ch, lc);
            LanReached(ch) && n < |lc| ==> PassCalls(ch, dec) == [GetAuto, GetLan] + lc[..n + 1]
    ensures var lc := LanCalls(ch, dec);
            LanReached(ch) && Answered(ch, lc) == |lc| && ch(GetSaved).None?
            ==> PassCalls(ch, dec) == [GetAuto, GetLan] + lc + [GetSaved]
    ensures SavedReached(ch, dec) ==>
              PassCalls(ch, dec)
              == [GetAuto, GetLan] + LanCalls(ch, dec) + [GetSaved] + Issued(ch, ExtraCalls(ch, dec))
  {
    var lc := LanCalls(ch, dec);
    var ec := ExtraCalls(ch, dec);
    var head := [GetAuto, GetLan];
    var front := head + lc;
    var upto := front + [GetSaved];
    assert Plan(ch, dec) == upto + ec;
    HeadCalls(ch);
    AnsweredConcat(ch, head, lc);
    AnsweredConcat(ch, front, [GetSaved]);
    if !LanReached(ch) {
      IssuedStopsInFirst(ch, head, lc);
      IssuedStopsInFirst(ch, front, [GetSaved]);
      IssuedStopsInFirst(ch, upto, ec);
    } else if Answered(ch, lc) < |lc| {
      IssuedGoesOn(ch, head, lc);
      IssuedStopsInFirst(ch, front, [GetSaved]);
      IssuedStopsInFirst(ch, upto, ec);
    } else {
      IssuedGoesOn(ch, head, lc);
      assert lc[..|lc|] == lc;
      assert Issued(ch, front) == front;
      SingleCall(ch, GetSaved);
      IssuedGoesOn(ch, front, [GetSaved]);
      if ch(GetSaved).None? {
        IssuedStopsInFirst(ch, upto, ec);
      } else {
        IssuedGoesOn(ch, upto, ec);
      }
    }
  }

  /** The first two fetches of the pass. */
  lemma HeadCalls(ch: Channel)
    ensures Answered(ch, [GetAuto, GetLan]) == if ch(GetAuto).None? then 0 else if ch(GetLan).None? then 1 else 2
    ensures Issued(ch, [GetAuto, GetLan]) == if ch(GetAuto).None? then [GetAuto] else [GetAuto, GetLan]
  {
    assert [GetAuto, GetLan][1..] == [GetLan];
    SingleCall(ch, GetLan);
  }

  lemma SingleCall(ch: Channel, c: Call)
    ensures Answered(ch, [c]) == if ch(c).None? then 0 else 1
    ensures Issued(ch, [c]) == [c]
  {
    assert [c][1..] == [];
  }

  /** A fetch that fails ends the pass: nothing is asked after it. */
  lemma PassStopsAtFailure(ch: Channel, dec: Decoder)
    ensures PassCalls(ch, dec) == Plan(ch, dec)[..|PassCalls(ch, dec)|]
    ensures forall k :: 0 <= k < |PassCalls(ch, dec)| - 1 ==> ch(PassCalls(ch, dec)[k]).Some?
    ensures |PassCalls(ch, dec)| < |Plan(ch, dec)| ==> ch(PassCalls(ch, dec)[|PassCalls(ch, dec)| - 1]).None?
  {
    IssuedStops(ch, Plan(ch, dec));
  }

  /** The ids the pass uses for the LAN hubs are those the hubs' descriptions carry. */
  lemma LanIdsUsed(ch: Channel, dec: Decoder)
    requires Decodes(ch, dec) && LanReached(ch)
    ensures forall i :: 0 <= i < |Lan(ch, dec)| && i <= Answered(ch, LanCalls(ch, dec)) ==>
              NodeId(Lan(ch, dec)[i].description) == Some(PassIds(ch, dec)[i])
  {
  }

  /** A completed pass: every call of the plan is made, the hub list is the merge of the LAN
      hubs and the saved ones, there is one flag per hub, and each flag is the decoded status
      fetched under that hub's id. */
  lemma PassCompleted(ch: Channel, dec: Decoder, nodes: seq<NodeInfo>, selected: seq<bool>)
    requires Completed(ch, dec)
    ensures PassCalls(ch, dec) == Plan(ch, dec)
    ensures PassNodes(ch, dec, nodes) == Merge(Lan(ch, dec), Saved(ch, dec))
    ensures |PassSelected(ch, dec, selected)| == |PassNodes(ch, dec, nodes)| == |PassIds(ch, dec)|
    ensures forall i :: 0 <= i < |PassIds(ch, dec)| ==>
              StatusIs(ch, PassIds(ch, dec)[i], PassSelected(ch, dec, selected)[i])
  {
    PassCallsCases(ch, dec);
    var ec := ExtraCalls(ch, dec);
    assert Extra(ch, dec)[..|ec|] == Extra(ch, dec);
    PassFlagsMatchHubs(ch, dec, nodes, selected);
  }

  /** A pass that fails among the LAN status fetches leaves the LAN hubs in place and fewer
      flags than hubs: the two lists are no longer parallel. */
  lemma PassAbortedInLan(ch: Channel, dec: Decoder, nodes: seq<NodeInfo>, selected: seq<bool>)
    requires LanReached(ch) && Answered(ch, LanCalls(ch, dec)) < |LanCalls(ch, dec)|
    ensures PassNodes(ch, dec, nodes) == Lan(ch, dec)
    ensures |PassSelected(ch, dec, selected)| == Answered(ch, LanCalls(ch, dec)) < |PassNodes(ch, dec, nodes)|
  {
  }

  /** A pass that fails among the saved hubs' status fetches leaves a prefix of the merged list,
      possibly all of it, that ends with the hub whose status fetch failed, and one flag fewer
      than hubs. */
  lemma PassAbortedInSaved(ch: Channel, dec: Decoder, nodes: seq<NodeInfo>, selected: seq<bool>)
    requires SavedReached(ch, dec) && !Completed(ch, dec)
    ensures var merged := Merge(Lan(ch, dec), Saved(ch, dec)); var after := PassNodes(ch, dec, nodes);
            |Lan(ch, dec)| < |after| <= |merged| && after == merged[..|after|]
    ensures var n := |Issued(ch, ExtraCalls(ch, dec))|; var last := Extra(ch, dec)[n - 1];
            && 0 < n <= |Extra(ch, dec)|
            && PassNodes(ch, dec, nodes)[|PassNodes(ch, dec, nodes)| - 1] == Synthesize(last)
            && ch(GetStatus(last.nodeId)).None?
    ensures |PassSelected(ch, dec, selected)| == |PassNodes(ch, dec, nodes)| - 1
  {
    var ec := ExtraCalls(ch, dec);
    var extra := Extra(ch, dec);
    var n := |Issued(ch, ec)|;
    assert Synthesized(extra[..n]) == Synthesized(extra)[..n];
    AnsweredIs(ch, ec);
    assert ec[n - 1] == GetStatus(extra[n - 1].nodeId);
  }

  /** Whenever the LAN list arrives, the flags set so far are the decoded statuses fetched under
      the ids of the hubs before them, and there are never more flags than hubs. */
  lemma PassFlagsMatchHubs(ch: Channel, dec: Decoder, nodes: seq<NodeInfo>, selected: seq<bool>)
    requires LanReached(ch)
    ensures |PassSelected(ch, dec, selected)| <= |PassNodes(ch, dec, nodes)|
    ensures |PassSelected(ch, dec, selected)| <= |PassIds(ch, dec)|
    ensures forall i :: 0 <= i < |PassSelected(ch, dec, selected)| ==>
              StatusIs(ch, PassIds(ch, dec)[i], PassSelected(ch, dec, selected)[i])
  {
    var lanIds := Ids(Lan(ch, dec));
    var extraIds := SavedIds(Extra(ch, dec));
    var la := Answers(ch, StatusCalls(lanIds));
    var ea := Answers(ch, StatusCalls(extraIds));
    var answers := if SavedReached(ch, dec) then la + ea else la;
    var sel := PassSelected(ch, dec, selected);
    var ids := PassIds(ch, dec);
    assert ids == lanIds + extraIds;
    assert sel == Flags(answers);
    forall i | 0 <= i < |sel|
      ensures StatusIs(ch, ids[i], sel[i])
    {
      if i < |la| {
        AnswersOfStatus(ch, lanIds, i);
      } else {
        AnswersOfStatus(ch, extraIds, i - |la|);
      }
      assert ch(GetStatus(ids[i])) == Some(answers[i]);
    }
  }
}
