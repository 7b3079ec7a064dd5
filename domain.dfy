/** Entities of the mission / crew engine, the shared database state they
    live in, the errors the backend reports, the side effects it produces and
    the configuration that distinguishes the two backend revisions. */
module Domain {
  import opened Wrappers
  import opened Text

  // ---------------------------------------------------------------------
  // Entities
  // ---------------------------------------------------------------------

  /** `MissionStatuses`; the database stores their names as text. */
  datatype Status = Open | InProgress | Completed | Failed

  /** A row of `missions`. `deleted` stands for a non-null `deleted_at`. */
  datatype Mission = Mission(
    name: string,
    description: Option<string>,
    status: Status,
    chiefId: int,
    maxCrew: int,
    deleted: bool)

  /** The columns of `brawlers` the engine reads. */
  datatype Brawler = Brawler(
    username: string,
    displayName: string,
    avatarUrl: Option<string>,
    joinCount: int,
    successCount: int)

  /** A row of `achievements`; `condition_type` and `condition_value` are nullable. */
  datatype Achievement = Achievement(
    id: int,
    name: string,
    description: Option<string>,
    iconUrl: Option<string>,
    conditionType: Option<string>,
    conditionValue: Option<int>)

  /** A row of `crew_memberships`; the pair is the table's primary key. */
  datatype Membership = Membership(missionId: int, brawlerId: int)

  /** A row of `mission_messages`. `userId` is `None` for system messages. */
  datatype Message = Message(
    missionId: int,
    userId: Option<int>,
    content: string,
    kind: string,
    createdAt: int)

  /** The three values the backend writes into `mission_invites.status`. */
  datatype InviteStatus = Pending | Accepted | Rejected

  /** A row of `mission_invites`. */
  datatype Invite = Invite(id: int, missionId: int, userId: int, status: InviteStatus)

  /** A row of `brawler_achievements`, keyed by (brawler, achievement). */
  type Award = (int, int)

  /** The whole database the repositories share. Sequences keep table order.
      `earned` maps each (brawler, achievement) key to its `earned_at`. */
  datatype Store = Store(
    missions: map<int, Mission>,
    nextMissionId: int,
    brawlers: map<int, Brawler>,
    crew: seq<Membership>,
    achievements: seq<Achievement>,
    earned: map<Award, int>,
    messages: seq<Message>,
    invites: seq<Invite>,
    nextInviteId: int)

  predicate NoDup<T(==)>(xs: seq<T>) {
    forall i, j :: 0 <= i < j < |xs| ==> xs[i] != xs[j]
  }

  /** A duplicate-free sequence has a duplicate-free tail that misses its head. */
  lemma NoDupTail<T>(xs: seq<T>)
    requires NoDup(xs) && |xs| > 0
    ensures NoDup(xs[1..]) && xs[0] !in xs[1..]
  {
    forall i, j | 0 <= i < j < |xs[1..]| ensures xs[1..][i] != xs[1..][j] {
      assert xs[1..][i] == xs[i + 1] && xs[1..][j] == xs[j + 1];
    }
    forall k | 0 <= k < |xs[1..]| ensures xs[1..][k] != xs[0] {
      assert xs[1..][k] == xs[k + 1];
    }
  }

  lemma NoDupCons<T>(x: T, xs: seq<T>)
    requires NoDup(xs) && x !in xs
    ensures NoDup([x] + xs)
  {
    forall i, j | 0 <= i < j < |[x] + xs| ensures ([x] + xs)[i] != ([x] + xs)[j] {
      assert ([x] + xs)[j] == xs[j - 1];
      if i > 0 {
        assert ([x] + xs)[i] == xs[i - 1];
      }
    }
  }

  /** The database constraints the engine relies on: the composite primary key
      of `crew_memberships`, the primary keys of `achievements` and
      `mission_invites`, and serial ids that are always ahead of the rows. */
  predicate Wf(s: Store) {
    NoDup(s.crew)
    && (forall i, j :: 0 <= i < j < |s.achievements| ==> s.achievements[i].id != s.achievements[j].id)
    && (forall i, j :: 0 <= i < j < |s.invites| ==> s.invites[i].id != s.invites[j].id)
    && (forall i :: 0 <= i < |s.invites| ==> s.invites[i].id < s.nextInviteId)
    && (forall id :: id in s.missions ==> id < s.nextMissionId)
  }

  // ---------------------------------------------------------------------
  // Errors
  // ---------------------------------------------------------------------

  /** Every error the engine can return. */
  datatype Error =
    | ChiefCannotJoin
    | AlreadyJoined
    | NotJoinable
    | MissionFull
    | OnlyChiefCanKick
    | InvalidStageChange
    | AlreadyMember
    | AlreadyInvited
    | InviteNotFound
    | NotAuthorizedToAccept
    | NotAuthorizedToDecline
    | InviteNotPending
    | NameTooShort
    | CapacityOutOfRange
    | BelowCrewCount(count: int)
    | NotFound
    | StoreFailure(detail: string)
    | EnvMissing
    | EnvParse(kind: IntErrorKind)

  /** The text `to_string()` gives for each error. */
  function ErrorText(e: Error): string {
    match e
    case ChiefCannotJoin => ChiefJoinText + ChiefJoinTail
    case AlreadyJoined => "Already joined"
    case NotJoinable => "Mission is not joinable"
    case MissionFull => "Mission is full"
    case OnlyChiefCanKick => "Only the Chief can kick members"
    case InvalidStageChange => "Invalid condition to change stages!"
    case AlreadyMember => "User is already a member"
    case AlreadyInvited => "User is already invited"
    case InviteNotFound => "Invite not found"
    case NotAuthorizedToAccept => "Not authorized to accept this invite"
    case NotAuthorizedToDecline => "Not authorized to decline this invite"
    case InviteNotPending => "Invite is not pending"
    case NameTooShort => "Mission name must be least 4 characters long"
    case CapacityOutOfRange => "Mission capacity must be between 2 and 10"
    case BelowCrewCount(n) => "Cannot reduce capacity below current crew count (" + IntToString(n) + ")"
    case NotFound => "Record not found"
    case StoreFailure(d) => d
    case EnvMissing => "missing value"
    case EnvParse(k) => IntErrorText(k)
  }

  /** The part of the chief's join refusal the earlier router matches on. */
  const ChiefJoinText: string := "The Chief can not join"
  const ChiefJoinTail: string := " in his own mission as a crew member!!"

  /** The text Postgres reports for a second row with the same
      `crew_memberships` key. */
  const DuplicateCrewKeyText: string :=
    "duplicate key value violates unique constraint \"crew_memberships_pkey\""

  // ---------------------------------------------------------------------
  // Injected failures
  // ---------------------------------------------------------------------

  /** The kinds of database call an operation makes. Where one operation
      makes a second call of the same kind, the second has a kind of its own
      so that it can fail while the first succeeds. */
  datatype Call =
    | GetOne          // mission_viewing get_one
    | CrewCount       // mission_viewing crew_counting
    | GetCrew         // mission_viewing get_crew
    | CrewSnapshot    // the get_crew that `to_completed` makes before its write
    | IsMember        // crew is_member
    | CrewInsert      // insert into crew_memberships
    | CrewDelete      // delete from crew_memberships
    | CounterUpdate   // brawlers.mission_join_count + 1
    | StatusWrite     // the mission status transition write
    | MissionWrite    // missions insert / update
    | FindBrawler     // brawlers find_by_id
    | BrawlerReread   // the second find_by_id of an invite acceptance
    | AchievementRead // loading achievements
    | MessageRead     // select from mission_messages
    | InviteRead      // select from mission_invites
    | InviteWrite     // insert into / update mission_invites

  /** The database failures during one operation: every call of a kind in
      `failing` returns an error whose text is `detail`; so does each insert
      into `brawler_achievements` of a key in `failingAwards` and each insert
      into `mission_messages` of a row in `failingMessages`, while the other
      inserts of the same operation succeed. */
  datatype Faults = Faults(failing: set<Call>, failingAwards: set<Award>, failingMessages: set<Message>, detail: string)

  const NoFaults: Faults := Faults({}, {}, {}, "")

  predicate Fails(f: Faults, c: Call) {
    c in f.failing
  }

  /** The insert of the `brawler_achievements` row with key `k` fails. */
  predicate AwardFails(f: Faults, k: Award) {
    k in f.failingAwards
  }

  /** The insert of the `mission_messages` row `msg` fails. */
  predicate InsertFails(f: Faults, msg: Message) {
    msg in f.failingMessages
  }

  // ---------------------------------------------------------------------
  // Side effects
  // ---------------------------------------------------------------------

  /** `NotificationType`. */
  datatype NotificationKind = JoinMission | LeaveMission | MissionStatusUpdate

  /** The JSON `metadata` of a notification. */
  datatype Metadata = NoMeta | MissionMeta(missionId: int) | JoinMeta(missionId: int, joinerId: int)

  /** A notification: `None` as recipient means every connected user. */
  datatype Notification = Notification(
    recipient: Option<int>,
    title: string,
    message: string,
    kind: NotificationKind,
    metadata: Metadata)

  /** The event the realtime service carries to a mission's subscribers
      (`ChatMessage` without its wall-clock `created_at`). */
  datatype ChatMessage = ChatMessage(
    missionId: int,
    userId: Option<int>,
    displayName: Option<string>,
    avatarUrl: Option<string>,
    content: string,
    kind: string)

  /** What an operation hands to the outside world, in order: notifications
      sent on the notification service, events given to the mission realtime
      service, and system payloads given to the earlier revision's WebSocket
      rooms. */
  datatype Effect =
    | Notify(n: Notification)
    | Publish(missionId: int, msg: ChatMessage)
    | RoomPublish(missionId: int, content: string)

  /** The system event both revisions broadcast: no author, type "system". */
  function SystemEvent(missionId: int, content: string): ChatMessage {
    ChatMessage(missionId, None, None, None, content, "system")
  }

  /** The result of a store-level operation: new state and result. */
  datatype Outcome<T> = Outcome(s: Store, r: Result<T, Error>)

  /** The result of a use case: new state, result and the effects, in order. */
  datatype Run<T> = Run(s: Store, r: Result<T, Error>, fx: seq<Effect>)

  /** A state and the effects produced so far, for best-effort steps that
      cannot fail. */
  datatype Trail = Trail(s: Store, fx: seq<Effect>)

  // ---------------------------------------------------------------------
  // Configuration
  // ---------------------------------------------------------------------

  /** `src/…` is the later backend revision, `server/src/…` the earlier. */
  datatype Revision = Later | Earlier

  /** The two crew repositories: insert then increment as separate statements,
      or both inside one transaction. */
  datatype CrewRepo = NonAtomic | Transactional

  /** The `MAX_CREW_PER_MISSION` environment variable. */
  datatype EnvVar = Missing | Value(text: string)

  datatype Config = Config(revision: Revision, crewRepo: CrewRepo, maxCrewEnv: EnvVar)

  /** `std::env::var(..).expect(..).parse::<i64>()?`. A missing variable is a
      panic in the source; here it is the error `EnvMissing`. */
  function EnvMaxCrew(cfg: Config): (r: Result<int, Error>)
    ensures r.Ok? <==> cfg.maxCrewEnv.Value? && ParseI64(cfg.maxCrewEnv.text).Ok?
  {
    match cfg.maxCrewEnv
    case Missing => Err(EnvMissing)
    case Value(t) =>
      match ParseI64(t)
      case Ok(v) => Ok(v)
      case Err(k) => Err(EnvParse(k))
  }
}
