/** What the upstream client can rely on: its replies, and its knowledge of the tool catalogue, over every run. */
module ProxyCatalogue {
  import opened Common
  import opened Text
  import opened McpModel
  import opened ProxyModel
  import opened ProxyTheorems

  // ---------- Replies ----------

  predicate IsResponse(out: Outgoing) {
    out.Reply? || out.ReplyError?
  }

  /** Which errors a method can be answered with, and under which code; only a tool call is said to have side
      effects. */
  predicate Fitting(rpc: string, params: Json, error: Outgoing)
    requires error.ReplyError?
  {
    if rpc == "initialize" then
      if !params.JObject? || params.GetString("protocolVersion").None? then error.code == -32602
      else error.code == -32002 && error.why.Disconnected()
    else
      && rpc != "ping"
      && (error.why.NotInitialized? || rpc == "tools/list" ==> error.code == -32002)
      && (!error.why.NotInitialized? && rpc != "tools/list" ==> error.code == -32001)
      && (error.why.Uncertain? ==> error.why.sideEffecting == (rpc == "tools/call"))
  }

  /** The output an input line must have, by sections 4.1 and 5 of JSON-RPC 2.0: an object with an id is answered
      exactly once, under that id and last; an object without one is not answered; a line that is not a
      JSON object gets one error under the null id, and one of white space alone nothing. */
  predicate Answers(cfg: Config, line: string, out: seq<Outgoing>) {
    if forall c | c in line :: IsWhitespace(c) then out == []
    else
      match cfg.parse(line)
      case None => |out| == 1 && out[0].ReplyError? && out[0].id == JNull && out[0].code == -32700
      case Some(message) =>
        if !message.JObject? then |out| == 1 && out[0].ReplyError? && out[0].id == JNull && out[0].code == -32600
        else if message.Get("id").None? then out == []
        else
          && 1 <= |out| <= 2 && (|out| == 2 ==> out[0] == ListChanged)
          && var last, id, rpc := out[|out| - 1], message.Get("id").value, Rpc(message);
             && IsResponse(last) && last.id == id
             && (rpc.None? ==> last == ReplyError(id, -32600, MissingMethod))
             && (rpc == Some("ping") ==> last == Reply(id, JObject(map[])))
             && (rpc.Some? && last.ReplyError? ==> Fitting(rpc.value, Params(message), last))
  }

  lemma RetryFails(cfg: Config, p: Proxy, w: World, rpc: string, params: Json, sideEffecting: bool)
    ensures var s := RetryRequest(cfg, p, w, rpc, params, sideEffecting);
            s.r.Err? ==>
              !s.r.error.NotInitialized? && (s.r.error.Uncertain? ==> s.r.error.sideEffecting == sideEffecting)
  {
    hide EnsureConnected, RequestMethod, Handshakes, Relays, Listed, WellTagged, Evolves, Later;
  }

  lemma ForwardFails(cfg: Config, p: Proxy, w: World, rpc: string, params: Json, sideEffecting: bool)
    ensures var s := ForwardRequest(cfg, p, w, rpc, params, sideEffecting);
            s.r.Err? ==>
              !s.r.error.NotInitialized? && (s.r.error.Uncertain? ==> s.r.error.sideEffecting == sideEffecting)
  {
    hide EnsureConnected, RequestMethod, RetryRequest, Handshakes, Relays, Listed, WellTagged, Evolves, Later;
    var ready := EnsureConnected(cfg, p, w);
    if ready.r.Ok? {
      var first := RequestMethod(cfg, ready.p.client.value, ready.w, rpc, params);
      RetryFails(cfg, ResetDownstream(Adopt(ready.p, first.c)), first.w, rpc, params, sideEffecting);
    }
  }

  lemma ListingFails(cfg: Config, p: Proxy, w: World)
    ensures var s := RefreshToolsWithReconnect(cfg, p, w);
            s.r.Err? ==> s.r.error.Disconnected()
  {
    hide EnsureConnected, ListToolsValue, InstallTools, Handshakes, Relays, Listed, WellTagged, Evolves, Later;
  }

  lemma ConnectingFails(cfg: Config, p: Proxy, w: World, deadline: nat)
    ensures ConnectForInitialize(cfg, p, w, deadline).r.Err? ==>
              ConnectForInitialize(cfg, p, w, deadline).r.error.Disconnected()
    decreases if w.now < deadline then deadline - w.now else 0
  {
    hide EnsureConnected, Handshakes, Relays, Listed, WellTagged;
    var s := EnsureConnected(cfg, p, w);
    if !(s.r.Ok? || s.p.cachedTools.Some? || deadline <= s.w.now) {
      ConnectingFails(cfg, s.p, s.w.Sleep(100), deadline);
    }
  }

  /** The reply to a request. */
  lemma ResponseFits(cfg: Config, p: Proxy, w: World, id: Json, rpc: string, params: Json)
    ensures var a := Respond(cfg, p, w, id, rpc, params);
            && IsResponse(a.out) && a.out.id == id
            && (rpc == "ping" ==> a.out == Reply(id, JObject(map[])))
            && (a.out.ReplyError? ==> Fitting(rpc, params, a.out))
  {
    hide ConnectForInitialize, RefreshToolsWithReconnect, ForwardRequest, InitializeResult, ResetDownstream;
    hide Handshakes, Relays, Listed, WellTagged, Evolves, Reports, Later;
    if rpc == "initialize" {
      if params.JObject? && params.GetString("protocolVersion").Some? {
        ConnectingFails(
          cfg, Reinitialized(p, params, params.GetString("protocolVersion").value), w, w.now + cfg.startupWait);
      }
    } else if rpc == "tools/list" {
      ListingFails(cfg, p, w);
    } else if rpc != "ping" {
      ForwardFails(cfg, p, w, rpc, params, rpc == "tools/call");
    }
  }

  lemma LineAnswers(cfg: Config, p: Proxy, w: World, line: string)
    ensures Answers(cfg, line, HandleLine(cfg, p, w, line).out)
  {
    hide Respond, HandleNotification, Handshakes, Relays, Listed, WellTagged, Trim, IsWhitespace, Fitting, Later;
    BlankIsTrimmed(line);
    if cfg.parse(line).Some? {
      var message := cfg.parse(line).value;
      if message.Get("id").Some? && Rpc(message).Some? {
        ResponseFits(cfg, p, w, message.Get("id").value, Rpc(message).value, Params(message));
      }
    }
  }

  lemma {:induction false} ReplyDiscipline(
    cfg: Config, script: seq<Answer>, disk: Option<CacheFile>, lines: seq<string>, k: nat)
    requires k < |lines|
    ensures Answers(cfg, lines[k], RunStream(cfg, script, disk, lines).groups[k])
  {
    hide HandleLine, Answers, Handshakes, Relays, Listed, WellTagged, IsWhitespace;
    var n := |lines| - 1;
    var before := RunStream(cfg, script, disk, lines[..n]);
    if k < n {
      ReplyDiscipline(cfg, script, disk, lines[..n], k);
      assert lines[..n][k] == lines[k];
    } else {
      LineAnswers(cfg, before.p, before.w, lines[n]);
    }
  }

  // ---------- When the client counts as initialized ----------

  function Message(cfg: Config, line: string): Json {
    if Trim(line) == "" then JNull else cfg.parse(line).GetOr(JNull)
  }

  predicate IsRequest(message: Json, rpc: string) {
    message.Get("id").Some? && Rpc(message) == Some(rpc)
  }

  predicate WellFormedInitialize(message: Json) {
    IsRequest(message, "initialize") && Params(message).JObject? && Params(message).GetString("protocolVersion").Some?
  }

  predicate InitializedNotice(message: Json) {
    message.JObject? && message.Get("id").None? && Rpc(message) == Some("notifications/initialized")
  }

  /** Read off the input alone: `notifications/initialized` has come since the latest well-formed `initialize`. */
  predicate Ready(cfg: Config, lines: seq<string>) {
    if lines == [] then false
    else
      var message := Message(cfg, lines[|lines| - 1]);
      InitializedNotice(message) || (Ready(cfg, lines[..|lines| - 1]) && !WellFormedInitialize(message))
  }

  lemma LineReady(cfg: Config, p: Proxy, w: World, line: string)
    requires Invariant(p, w)
    ensures var t := HandleLine(cfg, p, w, line);
            var message := Message(cfg, line);
            && t.p.upstreamInitialized
                 == (InitializedNotice(message) || (p.upstreamInitialized && !WellFormedInitialize(message)))
            && (ListChanged in t.out ==> p.upstreamInitialized && !WellFormedInitialize(message))
  {
    hide ConnectForInitialize, RefreshToolsWithReconnect, ForwardRequest, ForwardNotification;
    hide Handshakes, Relays, Listed, WellTagged, Trim;
  }

  /** No `list_changed` is sent before `initialized` since the latest `initialize`. */
  lemma {:induction false} NothingBeforeInitialized(
    cfg: Config, script: seq<Answer>, disk: Option<CacheFile>, lines: seq<string>)
    ensures var run := RunStream(cfg, script, disk, lines);
            && run.p.upstreamInitialized == Ready(cfg, lines)
            && forall k | 0 <= k < |lines| && ListChanged in run.groups[k] :: Ready(cfg, lines[..k])
  {
    hide HandleLine, Handshakes, Relays, Listed, WellTagged, Invariant, Message, InitializedNotice;
    hide WellFormedInitialize;
    if lines != [] {
      var n := |lines| - 1;
      var earlier := lines[..n];
      var before := RunStream(cfg, script, disk, earlier);
      NothingBeforeInitialized(cfg, script, disk, earlier);
      RunInvariant(cfg, script, disk, earlier);
      LineReady(cfg, before.p, before.w, lines[n]);
      var run := RunStream(cfg, script, disk, lines);
      forall k | 0 <= k < |lines| && ListChanged in run.groups[k] ensures Ready(cfg, lines[..k]) {
        if k < n {
          assert run.groups[k] == before.groups[k];
          assert earlier[..k] == lines[..k];
        }
      }
    }
  }

  // ---------- What the client knows of the catalogue ----------

  /** The client's side: the last `tools/list` result since the latest well-formed `initialize`, whether a
      `list_changed` has come since that result, whether the result came before `initialized` (`early`), and
      whether the catalogue had already moved on when `initialized` came (`drifted`). */
  datatype View = View(listed: Option<Json>, told: bool, early: bool, drifted: bool)

  function Observe(v: View, message: Json, p: Proxy, out: seq<Outgoing>): View {
    if WellFormedInitialize(message) then View(None, false, false, false)
    else if InitializedNotice(message) then
      if p.upstreamInitialized then v else v.(drifted := v.listed.Some? && v.listed != p.cachedTools)
    else if IsRequest(message, "tools/list") && out != [] && out[|out| - 1].Reply? then
      View(Some(out[|out| - 1].result), false, !p.upstreamInitialized, false)
    else v.(told := v.told || ListChanged in out)
  }

  function ViewAfter(cfg: Config, script: seq<Answer>, disk: Option<CacheFile>, lines: seq<string>): View {
    if lines == [] then View(None, false, false, false)
    else
      var earlier := lines[..|lines| - 1];
      var run := RunStream(cfg, script, disk, lines);
      Observe(ViewAfter(cfg, script, disk, earlier), Message(cfg, lines[|lines| - 1]),
              RunStream(cfg, script, disk, earlier).p, run.groups[|lines| - 1])
  }

  /** An initialized client holds an outdated catalogue, and nothing has told or is about to tell it. */
  predicate Missed(v: View, p: Proxy) {
    p.upstreamInitialized && v.listed.Some? && p.cachedTools != v.listed && !v.told && !p.pendingListChanged
  }

  ghost predicate Informed(v: View, p: Proxy) {
    && (v.listed.Some? ==> p.cachedTools.Some?)
    && (v.drifted ==> v.early && v.listed.Some? && p.upstreamInitialized)
    && (v.listed.Some? && !v.early ==> p.upstreamInitialized)
    && (!p.upstreamInitialized ==> !v.told && !p.pendingListChanged)
    && (p.upstreamInitialized && v.listed.Some? && !v.told && !p.pendingListChanged ==>
          (v.drifted <==> p.cachedTools != v.listed))
  }

  /** Answering a request, up to and including the flush. */
  lemma FlushInforms(v: View, p: Proxy, a: Answered, message: Json)
    requires Reports(p, a.p) && Informed(v, p) && IsResponse(a.out)
    requires !WellFormedInitialize(message) && message.Get("id").Some?
    requires IsRequest(message, "tools/list") && a.out.Reply? ==> a.p.cachedTools == Some(a.out.result)
    requires a.p.pendingListChanged ==> a.p.upstreamInitialized
    ensures Informed(Observe(v, message, p, Flush(a).out), Flush(a).p)
  {
    hide WellFormedInitialize, IsRequest;
    assert !InitializedNotice(message);
  }

  lemma RequestInforms(v: View, p: Proxy, w: World, a: Answered, message: Json, cfg: Config)
    requires Invariant(p, w) && Informed(v, p)
    requires message.Get("id").Some? && Rpc(message).Some?
    requires a == Respond(cfg, p, w, message.Get("id").value, Rpc(message).value, Params(message))
    ensures Informed(Observe(v, message, p, Flush(a).out), Flush(a).p)
  {
    hide Respond, Handshakes, Relays, Listed, WellTagged;
    if !WellFormedInitialize(message) {
      FlushInforms(v, p, a, message);
    }
  }

  lemma OtherInforms(cfg: Config, p: Proxy, w: World, line: string, v: View)
    requires Invariant(p, w) && Informed(v, p)
    requires Message(cfg, line).Get("id").None? || Rpc(Message(cfg, line)).None?
    ensures var t := HandleLine(cfg, p, w, line); Informed(Observe(v, Message(cfg, line), p, t.out), t.p)
  {
    hide Respond, ForwardNotification, Handshakes, Relays, Listed, WellTagged, Trim;
  }

  lemma LineInforms(cfg: Config, p: Proxy, w: World, line: string, v: View)
    requires Invariant(p, w) && Informed(v, p)
    ensures var t := HandleLine(cfg, p, w, line); Informed(Observe(v, Message(cfg, line), p, t.out), t.p)
  {
    hide Respond, HandleNotification, Informed, Invariant, Observe, Flush, Handshakes, Relays, Listed, WellTagged, Trim;
    var message := Message(cfg, line);
    if message.Get("id").Some? && Rpc(message).Some? {
      var a := Respond(cfg, p, w, message.Get("id").value, Rpc(message).value, Params(message));
      RequestInforms(v, p, w, a, message, cfg);
    } else {
      OtherInforms(cfg, p, w, line, v);
    }
  }

  lemma {:induction false} RunInforms(cfg: Config, script: seq<Answer>, disk: Option<CacheFile>, lines: seq<string>)
    ensures Informed(ViewAfter(cfg, script, disk, lines), RunStream(cfg, script, disk, lines).p)
  {
    hide HandleLine, Handshakes, Relays, Listed, WellTagged, Invariant, Observe;
    if lines != [] {
      var earlier := lines[..|lines| - 1];
      var before := RunStream(cfg, script, disk, earlier);
      RunInforms(cfg, script, disk, earlier);
      RunInvariant(cfg, script, disk, earlier);
      LineInforms(cfg, before.p, before.w, lines[|lines| - 1], ViewAfter(cfg, script, disk, earlier));
    }
  }

  /** No missed catalogue change: over every run, a client whose last listing came after `initialized` is never
      left with an outdated catalogue unannounced.  For any client, a change is missed exactly when it had
      happened before `initialized` to a client that had listed earlier still, and none has come since. */
  lemma NoMissedChange(cfg: Config, script: seq<Answer>, disk: Option<CacheFile>, lines: seq<string>)
    ensures var run, v := RunStream(cfg, script, disk, lines), ViewAfter(cfg, script, disk, lines);
            && (!v.early ==> !Missed(v, run.p))
            && (Missed(v, run.p) <==> v.drifted && !v.told && !run.p.pendingListChanged)
            && (run.p.pendingListChanged ==> Ready(cfg, lines))
  {
    RunInforms(cfg, script, disk, lines);
    RunInvariant(cfg, script, disk, lines);
    NothingBeforeInitialized(cfg, script, disk, lines);
  }

  /** Every request with a method delivers what is pending. */
  lemma RequestFlushes(cfg: Config, p: Proxy, w: World, line: string)
    requires Invariant(p, w)
    requires Message(cfg, line).Get("id").Some? && Rpc(Message(cfg, line)).Some?
    ensures var t := HandleLine(cfg, p, w, line);
            && !t.p.pendingListChanged
            && (p.pendingListChanged && !WellFormedInitialize(Message(cfg, line)) ==> ListChanged in t.out)
  {
    hide ConnectForInitialize, RefreshToolsWithReconnect, ForwardRequest, ForwardNotification;
    hide Handshakes, Relays, Listed, WellTagged, Trim;
  }

  /** Some well-formed `initialize` has come. */
  predicate Begun(cfg: Config, lines: seq<string>) {
    exists i | 0 <= i < |lines| :: WellFormedInitialize(Message(cfg, lines[i]))
  }

  lemma LineBegins(cfg: Config, p: Proxy, w: World, line: string)
    ensures HandleLine(cfg, p, w, line).p.initializeParams.Some?
        <==> p.initializeParams.Some? || WellFormedInitialize(Message(cfg, line))
  {
    hide ConnectForInitialize, RefreshToolsWithReconnect, ForwardRequest, ForwardNotification;
    hide Handshakes, Relays, Listed, WellTagged, Trim;
  }

  lemma {:induction false} RunBegun(cfg: Config, script: seq<Answer>, disk: Option<CacheFile>, lines: seq<string>)
    ensures RunStream(cfg, script, disk, lines).p.initializeParams.Some? <==> Begun(cfg, lines)
  {
    hide HandleLine, Handshakes, Relays, Listed, WellTagged, WellFormedInitialize, Message;
    if lines != [] {
      var n := |lines| - 1;
      var earlier := lines[..n];
      var before := RunStream(cfg, script, disk, earlier);
      RunBegun(cfg, script, disk, earlier);
      LineBegins(cfg, before.p, before.w, lines[n]);
      assert forall i | 0 <= i < n :: earlier[i] == lines[i];
      assert Begun(cfg, earlier) ==> Begun(cfg, lines);
      assert Begun(cfg, lines) ==> Begun(cfg, earlier) || WellFormedInitialize(Message(cfg, lines[n]));
    }
  }

  lemma LineLists(cfg: Config, p: Proxy, w: World, line: string)
    requires p.initializeParams.Some? && p.cachedTools.Some? && IsRequest(Message(cfg, line), "tools/list")
    ensures var t := HandleLine(cfg, p, w, line);
            && t.p.cachedTools.Some? && t.out != [] && Message(cfg, line).Get("id").Some?
            && t.out[|t.out| - 1] == Reply(Message(cfg, line).Get("id").value, t.p.cachedTools.value)
  {
    hide RefreshToolsWithReconnect, ForwardRequest, ForwardNotification, HandleInitialize;
    hide Handshakes, Relays, Listed, WellTagged, Trim, Invariant, Later;
  }

  lemma HeldIsListed(p: Proxy, w: World)
    requires Invariant(p, w)
    ensures p.cachedTools == Listed(w.log, w.loaded).last
  {
    hide Handshakes, Listed;
  }

  /** Once a well-formed `initialize` has come and a catalogue is held, `tools/list` never fails, whatever the network
      does: it returns the pages of the last complete listing in the log, or the cached catalogue the proxy
      started with when none has completed. */
  lemma ToolsListAlwaysAnswers(cfg: Config, script: seq<Answer>, disk: Option<CacheFile>, lines: seq<string>)
    requires lines != [] && IsRequest(Message(cfg, lines[|lines| - 1]), "tools/list")
    requires Begun(cfg, lines[..|lines| - 1])
    requires RunStream(cfg, script, disk, lines[..|lines| - 1]).p.cachedTools.Some?
    ensures var run := RunStream(cfg, script, disk, lines);
            var out := run.groups[|lines| - 1];
            var last := Listed(run.w.log, LoadToolsCache(disk)).last;
            && last.Some? && out != []
            && out[|out| - 1] == Reply(Message(cfg, lines[|lines| - 1]).Get("id").value, last.value)
  {
    hide HandleLine, Message, IsRequest, Begun, Invariant, Handshakes, Relays, Listed, WellTagged;
    var earlier := lines[..|lines| - 1];
    var before := RunStream(cfg, script, disk, earlier);
    RunInvariant(cfg, script, disk, lines);
    RunBegun(cfg, script, disk, earlier);
    LineLists(cfg, before.p, before.w, lines[|lines| - 1]);
    HeldIsListed(RunStream(cfg, script, disk, lines).p, RunStream(cfg, script, disk, lines).w);
  }
}
