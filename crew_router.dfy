/** The earlier revision's crew HTTP handlers: the error-text-to-status
    classification of `join`, `leave` and `kick`, and the system message
    each successful join or leave announces, persisted first and handed to
    the mission's WebSocket room only when persisted. */
module CrewRouter {
  import opened Wrappers
  import opened Text
  import opened Domain
  import Viewing
  import MessageLog
  import SystemLog
  import CrewOperation
  import opened Db

  /** An HTTP response: status code and the JSON `message`. */
  datatype Response = Response(status: int, message: string)

  /** A handler's outcome: new state, response and effects in order. */
  datatype Reply = Reply(s: Store, response: Response, fx: seq<Effect>)

  const Ok200: int := 200
  const BadRequest: int := 400
  const Forbidden: int := 403
  const Conflict: int := 409
  const ServerError: int := 500

  /** The handlers run the earlier revision's use case. */
  function EarlierConfig(repo: CrewRepo, env: EnvVar): Config {
    Config(Earlier, repo, env)
  }

  /** The status of a failed join, by substring of the error text. */
  function JoinStatus(text: string): int {
    if Contains(text, "Already joined") then Conflict
    else if Contains(text, "Mission is full") then Conflict
    else if Contains(text, "Mission is not joinable") then BadRequest
    else if Contains(text, ChiefJoinText) then BadRequest
    else ServerError
  }

  /** The status of a failed kick. */
  function KickStatus(text: string): (code: int)
    ensures code == Forbidden <==> Contains(text, "Only the Chief can kick members")
    ensures code in {Forbidden, ServerError}
  {
    if Contains(text, "Only the Chief can kick members") then Forbidden else ServerError
  }

  /** The display name for an announcement, "Unknown" when the lookup fails. */
  function DisplayName(s: Store, b: int, f: Faults): (name: string)
    ensures !Fails(f, FindBrawler) && b in s.brawlers ==> name == s.brawlers[b].displayName
    ensures Fails(f, FindBrawler) || b !in s.brawlers ==> name == "Unknown"
  {
    match Viewing.FindBrawler(s, b, f)
    case Ok(br) => br.displayName
    case Err(_) => "Unknown"
  }

  /** `broadcast_system_message`: the room event exists only for a message
      that was persisted; a failed persist leaves everything as it was. */
  function BroadcastSystemMessage(t: Trail, m: int, content: string, now: int, f: Faults): (t': Trail)
    ensures InsertFails(f, SystemLog.Line(m, content, now)) ==> t' == t
    ensures !InsertFails(f, SystemLog.Line(m, content, now)) ==>
      t'.s == t.s.(messages := t.s.messages + [SystemLog.Line(m, content, now)])
      && t'.fx == t.fx + [RoomPublish(m, content)]
  {
    var o := MessageLog.Create(t.s, SystemLog.Line(m, content, now), f);
    if o.r.Ok? then Trail(o.s, t.fx + [RoomPublish(m, content)]) else t
  }

  /** The unsuccessful answer of a handler. */
  function Refusal(e: Error, status: int): Response {
    Response(status, ErrorText(e))
  }

  /** POST `/join/:mission_id`. */
  function JoinRoute(repo: CrewRepo, env: EnvVar, s: Store, m: int, b: int, now: int, f: Faults): Reply {
    var run := CrewOperation.JoinSpec(EarlierConfig(repo, env), s, m, b, now, f);
    match run.r
    case Err(e) => Reply(run.s, Refusal(e, JoinStatus(ErrorText(e))), run.fx)
    case Ok(_) =>
      var content := DisplayName(run.s, b, f) + " joined the mission";
      var t := BroadcastSystemMessage(Trail(run.s, run.fx), m, content, now, f);
      Reply(t.s, Response(Ok200, "Join Mission_id:" + IntToString(m) + " completed"), t.fx)
  }

  /** DELETE `/leave/:mission_id`: every failure is a 500. */
  function LeaveRoute(repo: CrewRepo, env: EnvVar, s: Store, m: int, b: int, now: int, f: Faults): Reply {
    var run := CrewOperation.LeaveSpec(EarlierConfig(repo, env), s, m, b, now, f);
    match run.r
    case Err(e) => Reply(run.s, Refusal(e, ServerError), run.fx)
    case Ok(_) =>
      var content := DisplayName(run.s, b, f) + " left the mission";
      var t := BroadcastSystemMessage(Trail(run.s, run.fx), m, content, now, f);
      Reply(t.s, Response(Ok200, "Leave Mission_id:" + IntToString(m) + " completed"), t.fx)
  }

  /** POST `/kick/:mission_id`: no announcement. */
  function KickRoute(repo: CrewRepo, env: EnvVar, s: Store, m: int, chief: int, member: int, now: int, f: Faults): Reply {
    var run := CrewOperation.KickSpec(EarlierConfig(repo, env), s, m, chief, member, now, f);
    match run.r
    case Err(e) => Reply(run.s, Refusal(e, KickStatus(ErrorText(e))), run.fx)
    case Ok(_) => Reply(run.s, Response(Ok200, "Member kicked"), run.fx)
  }

  // ---------------------------------------------------------------------
  // Properties
  // ---------------------------------------------------------------------

  /** A join failure is a conflict exactly when its text mentions a
      duplicate or a full mission, a bad request exactly when it mentions
      neither but a status or chief refusal, and a server error otherwise. */
  lemma JoinStatusIff(text: string)
    ensures JoinStatus(text) == Conflict <==> Contains(text, "Already joined") || Contains(text, "Mission is full")
    ensures JoinStatus(text) == BadRequest <==>
      !Contains(text, "Already joined") && !Contains(text, "Mission is full")
      && (Contains(text, "Mission is not joinable") || Contains(text, ChiefJoinText))
    ensures JoinStatus(text) in {Conflict, BadRequest, ServerError}
  {
  }

  /** The refusals of the earlier join other than a database failure or an
      unparsable capacity setting. */
  predicate JoinRefusal(e: Error) {
    e.AlreadyJoined? || e.MissionFull? || e.NotJoinable? || e.ChiefCannotJoin?
    || e.NotFound? || e.EnvMissing?
  }

  /** The status each kind of refusal is meant to get. */
  function JoinStatusOf(e: Error): int {
    match e
    case AlreadyJoined => Conflict
    case MissionFull => Conflict
    case NotJoinable => BadRequest
    case ChiefCannotJoin => BadRequest
    case _ => ServerError
  }

  /** Classifying the text gives every refusal of the join its intended
      status. */
  lemma JoinStatusByKind(e: Error)
    requires JoinRefusal(e)
    ensures JoinStatus(ErrorText(e)) == JoinStatusOf(e)
  {
    match e
    case AlreadyJoined => AlreadyJoinedStatus(e);
    case MissionFull => MissionFullStatus(e);
    case NotJoinable => NotJoinableStatus(e);
    case ChiefCannotJoin => ChiefStatus(e);
    case NotFound => OtherRefusalStatus(e);
    case EnvMissing => OtherRefusalStatus(e);
  }

  lemma AlreadyJoinedStatus(e: Error)
    requires e.AlreadyJoined?
    ensures JoinStatus(ErrorText(e)) == Conflict
  {
    ContainsPrefix(ErrorText(e), "Already joined");
  }

  lemma OtherRefusalStatus(e: Error)
    requires e.NotFound? || e.EnvMissing?
    ensures JoinStatus(ErrorText(e)) == ServerError
  {
    if e.NotFound? {
      NotFoundPlain();
    } else {
      EnvMissingPlain();
    }
    NoJoinPattern(ErrorText(e));
  }

  lemma NotFoundPlain()
    ensures var text := ErrorText(NotFound); 'A' !in text && 'M' !in text && 'T' !in text && 'O' !in text
  {
    var text := ErrorText(NotFound);
    assert forall k :: 0 <= k < |text| ==> text[k] == ' ' || 'a' <= text[k] <= 'z' || text[k] == 'R';
  }

  lemma EnvMissingPlain()
    ensures var text := ErrorText(EnvMissing); 'A' !in text && 'M' !in text && 'T' !in text
  {
    var text := ErrorText(EnvMissing);
    assert forall k :: 0 <= k < |text| ==> text[k] == ' ' || 'a' <= text[k] <= 'z';
  }

  lemma MissionFullStatus(e: Error)
    requires e.MissionFull?
    ensures JoinStatus(ErrorText(e)) == Conflict
  {
    var text := ErrorText(e);
    NotContains(text, "Already joined", 'A');
    ContainsPrefix(text, "Mission is full");
  }

  lemma NotJoinableStatus(e: Error)
    requires e.NotJoinable?
    ensures JoinStatus(ErrorText(e)) == BadRequest
  {
    var text := ErrorText(e);
    var a, b := "Mission is", " not joinable";
    assert text == a + b;
    assert 'A' !in a && 'A' !in b && 'f' !in a && 'f' !in b;
    NotContains(text, "Already joined", 'A');
    NotContains(text, "Mission is full", 'f');
    ContainsPrefix(text, "Mission is not joinable");
  }

  lemma ChiefStatus(e: Error)
    requires e.ChiefCannotJoin?
    ensures JoinStatus(ErrorText(e)) == BadRequest
  {
    ChiefTailPlain();
    ChiefRefusalStatus(ChiefJoinTail);
  }

  /** Any text that starts with the chief refusal and has neither 'A' nor
      'M' after it is a bad request. */
  lemma ChiefRefusalStatus(tail: string)
    requires 'A' !in tail && 'M' !in tail
    ensures JoinStatus(ChiefJoinText + tail) == BadRequest
  {
    var text := ChiefJoinText + tail;
    var a, b := "The Chief", " can not join";
    assert ChiefJoinText == a + b;
    assert 'A' !in a && 'A' !in b && 'M' !in a && 'M' !in b;
    NotContains(text, "Already joined", 'A');
    NotContains(text, "Mission is full", 'M');
    NotContains(text, "Mission is not joinable", 'M');
    ContainsPrefix(text, ChiefJoinText);
  }

  lemma ChiefTailPlain()
    ensures 'A' !in ChiefJoinTail && 'M' !in ChiefJoinTail
  {
    var tail := ChiefJoinTail;
    assert forall k :: 0 <= k < |tail| ==> tail[k] == ' ' || tail[k] == '!' || 'a' <= tail[k] <= 'z';
  }

  /** A text with none of 'A', 'M' and 'T' matches no join pattern. */
  lemma NoJoinPattern(text: string)
    requires 'A' !in text && 'M' !in text && 'T' !in text
    ensures JoinStatus(text) == ServerError
  {
    NotContains(text, "Already joined", 'A');
    NotContains(text, "Mission is full", 'M');
    NotContains(text, "Mission is not joinable", 'M');
    NotContains(text, ChiefJoinText, 'T');
  }

  /** Only the chief check of `kick` is answered with 403. */
  lemma KickStatuses()
    ensures KickStatus(ErrorText(OnlyChiefCanKick)) == Forbidden
    ensures KickStatus(ErrorText(NotFound)) == ServerError
  {
    KickChiefText();
    NotFoundPlain();
    NotContains(ErrorText(NotFound), "Only the Chief can kick members", 'O');
  }

  lemma KickChiefText()
    ensures Contains(ErrorText(OnlyChiefCanKick), "Only the Chief can kick members")
  {
    ContainsPrefix(ErrorText(OnlyChiefCanKick), "Only the Chief can kick members");
  }

  /** A successful join answers 200 and, once its message is persisted,
      announces "{display name} joined the mission" to the room; when the
      persist fails nothing is announced. A refused join is answered with
      its own text and no announcement. */
  lemma JoinRouteShape(repo: CrewRepo, env: EnvVar, s: Store, m: int, b: int, now: int, f: Faults)
    ensures var run := CrewOperation.JoinSpec(EarlierConfig(repo, env), s, m, b, now, f);
      var r := JoinRoute(repo, env, s, m, b, now, f);
      run.r.Ok? ==>
        r.response.status == Ok200
        && r.fx == run.fx + (if InsertFails(f, SystemLog.Line(m, DisplayName(run.s, b, f) + " joined the mission", now)) then []
             else [RoomPublish(m, DisplayName(run.s, b, f) + " joined the mission")])
    ensures var run := CrewOperation.JoinSpec(EarlierConfig(repo, env), s, m, b, now, f);
      var r := JoinRoute(repo, env, s, m, b, now, f);
      run.r.Err? ==> r == Reply(run.s, Response(JoinStatus(ErrorText(run.r.error)), ErrorText(run.r.error)), run.fx)
  {
  }

  /** The earlier join itself publishes nothing to rooms, so every room event
      of a join's reply is the one announcement, which follows a persisted
      message with the same content. */
  lemma JoinAnnouncementPersisted(repo: CrewRepo, env: EnvVar, s: Store, m: int, b: int, now: int, f: Faults)
    ensures var r := JoinRoute(repo, env, s, m, b, now, f);
      forall i :: 0 <= i < |r.fx| && r.fx[i].RoomPublish? ==>
        r.fx[i] == RoomPublish(m, r.fx[i].content)
        && SystemLog.Line(m, r.fx[i].content, now) in r.s.messages
  {
    var cfg := EarlierConfig(repo, env);
    var run := CrewOperation.JoinSpec(cfg, s, m, b, now, f);
    if run.r.Ok? {
      CrewOperation.JoinEarlierQuiet(cfg, s, m, b, now, f);
    } else {
      CrewOperation.JoinErr(cfg, s, m, b, now, f);
    }
    var r := JoinRoute(repo, env, s, m, b, now, f);
    forall i | 0 <= i < |r.fx| && r.fx[i].RoomPublish?
      ensures r.fx[i] == RoomPublish(m, r.fx[i].content) && SystemLog.Line(m, r.fx[i].content, now) in r.s.messages
    {
      assert run.r.Ok? && i == |run.fx|;
      assert r.s.messages[|r.s.messages| - 1] == SystemLog.Line(m, r.fx[i].content, now);
    }
  }

  // ---------------------------------------------------------------------
  // The handlers against the database
  // ---------------------------------------------------------------------

  method BroadcastSystemMessageTo(db: Database, m: int, content: string, now: int, f: Faults, fx0: seq<Effect>) returns (fx: seq<Effect>)
    modifies db
    ensures Trail(db.Snapshot(), fx) == BroadcastSystemMessage(Trail(old(db.Snapshot()), fx0), m, content, now, f)
  {
    var persisted := db.CreateMessage(SystemLog.Line(m, content, now), f);
    fx := fx0;
    if persisted.Ok? {
      fx := fx + [RoomPublish(m, content)];
    }
  }

  method Join(db: Database, repo: CrewRepo, env: EnvVar, m: int, b: int, now: int, f: Faults) returns (response: Response, fx: seq<Effect>)
    modifies db
    ensures Reply(db.Snapshot(), response, fx) == JoinRoute(repo, env, old(db.Snapshot()), m, b, now, f)
  {
    var r;
    r, fx := CrewOperation.Join(db, EarlierConfig(repo, env), m, b, now, f);
    if r.Err? {
      response := Refusal(r.error, JoinStatus(ErrorText(r.error)));
      return;
    }
    var name := DisplayName(db.Snapshot(), b, f);
    fx := BroadcastSystemMessageTo(db, m, name + " joined the mission", now, f, fx);
    response := Response(Ok200, "Join Mission_id:" + IntToString(m) + " completed");
  }

  method Leave(db: Database, repo: CrewRepo, env: EnvVar, m: int, b: int, now: int, f: Faults) returns (response: Response, fx: seq<Effect>)
    modifies db
    ensures Reply(db.Snapshot(), response, fx) == LeaveRoute(repo, env, old(db.Snapshot()), m, b, now, f)
  {
    var r;
    r, fx := CrewOperation.Leave(db, EarlierConfig(repo, env), m, b, now, f);
    if r.Err? {
      response := Refusal(r.error, ServerError);
      return;
    }
    var name := DisplayName(db.Snapshot(), b, f);
    fx := BroadcastSystemMessageTo(db, m, name + " left the mission", now, f, fx);
    response := Response(Ok200, "Leave Mission_id:" + IntToString(m) + " completed");
  }

  method Kick(db: Database, repo: CrewRepo, env: EnvVar, m: int, chief: int, member: int, now: int, f: Faults) returns (response: Response, fx: seq<Effect>)
    modifies db
    ensures Reply(db.Snapshot(), response, fx) == KickRoute(repo, env, old(db.Snapshot()), m, chief, member, now, f)
  {
    var r;
    r, fx := CrewOperation.Kick(db, EarlierConfig(repo, env), m, chief, member, now, f);
    if r.Err? {
      response := Refusal(r.error, KickStatus(ErrorText(r.error)));
    } else {
      response := Response(Ok200, "Member kicked");
    }
  }
}
