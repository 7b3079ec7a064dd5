/** The append-only `mission_messages` log as `MissionMessagePostgres` writes
    and reads it. */
module MessageLog {
  import opened Wrappers
  import opened Domain

  /** A log row with its serial id (the n-th row inserted has id n). */
  datatype Row = Row(id: int, msg: Message)

  /** The page size of `get_by_mission_id` (`LIMIT 100`). */
  const PageSize: nat := 100

  /** `create`: appends exactly one row. */
  function Create(s: Store, msg: Message, f: Faults): (o: Outcome<()>)
    ensures o.r.Ok? <==> !InsertFails(f, msg)
    ensures o.r.Ok? ==> o.s == s.(messages := s.messages + [msg])
    ensures o.r.Err? ==> o.s == s
  {
    if InsertFails(f, msg) then Outcome(s, Err(StoreFailure(f.detail)))
    else Outcome(s.(messages := s.messages + [msg]), Ok(()))
  }

  /** The rows of mission `m` (`WHERE mission_id = $1`), in log order. */
  function MissionRows(msgs: seq<Message>, m: int): (r: seq<Row>)
    ensures forall x :: x in r ==> x.msg.missionId == m && 1 <= x.id <= |msgs| && msgs[x.id - 1] == x.msg
    ensures forall i :: 0 <= i < |msgs| && msgs[i].missionId == m ==> Row(i + 1, msgs[i]) in r
    ensures forall i, j :: 0 <= i < j < |r| ==> r[i].id < r[j].id
  {
    if msgs == [] then []
    else
      var n := |msgs|;
      var init := MissionRows(msgs[..n - 1], m);
      assert forall x :: x in init ==> msgs[x.id - 1] == msgs[..n - 1][x.id - 1];
      init + (if msgs[n - 1].missionId == m then [Row(n, msgs[n - 1])] else [])
  }

  predicate Ascending(rs: seq<Row>) {
    forall i, j :: 0 <= i < j < |rs| ==> rs[i].msg.createdAt <= rs[j].msg.createdAt
  }

  /** Inserts `x` after every row that is not later than it. */
  function InsertByTime(x: Row, rs: seq<Row>): seq<Row> {
    if rs == [] then [x]
    else if x.msg.createdAt < rs[0].msg.createdAt then [x] + rs
    else [rs[0]] + InsertByTime(x, rs[1..])
  }

  lemma AscendingCons(a: Row, rs: seq<Row>)
    requires Ascending(rs)
    requires forall y :: y in rs ==> a.msg.createdAt <= y.msg.createdAt
    ensures Ascending([a] + rs)
  {
    forall i, j | 0 <= i < j < |[a] + rs| ensures ([a] + rs)[i].msg.createdAt <= ([a] + rs)[j].msg.createdAt {
      assert ([a] + rs)[j] == rs[j - 1];
      if i > 0 {
        assert ([a] + rs)[i] == rs[i - 1];
      }
    }
  }

  lemma {:induction false} InsertByTimeSpec(x: Row, rs: seq<Row>)
    requires Ascending(rs)
    ensures Ascending(InsertByTime(x, rs))
    ensures multiset(InsertByTime(x, rs)) == multiset(rs) + multiset{x}
  {
    if rs == [] {
    } else if x.msg.createdAt < rs[0].msg.createdAt {
      AscendingCons(x, rs);
    } else {
      var tail := rs[1..];
      assert rs == [rs[0]] + tail;
      InsertByTimeSpec(x, tail);
      var rest := InsertByTime(x, tail);
      forall y | y in rest ensures rs[0].msg.createdAt <= y.msg.createdAt {
        assert y in multiset(rest);
        if y != x {
          assert y in multiset(tail);
          var k :| 0 <= k < |tail| && tail[k] == y;
          assert rs[k + 1] == y;
        }
      }
      AscendingCons(rs[0], rest);
    }
  }

  /** `ORDER BY created_at ASC`, keeping log order among equal timestamps. */
  function SortByTime(rs: seq<Row>): seq<Row> {
    if rs == [] then [] else InsertByTime(rs[|rs| - 1], SortByTime(rs[..|rs| - 1]))
  }

  /** The sort returns the same rows, ascending. */
  lemma {:induction false} SortByTimeSpec(rs: seq<Row>)
    ensures Ascending(SortByTime(rs))
    ensures multiset(SortByTime(rs)) == multiset(rs)
  {
    if rs != [] {
      SortByTimeSpec(rs[..|rs| - 1]);
      InsertByTimeSpec(rs[|rs| - 1], SortByTime(rs[..|rs| - 1]));
      assert rs == rs[..|rs| - 1] + [rs[|rs| - 1]];
    }
  }

  function Min(a: int, b: int): int {
    if a < b then a else b
  }

  /** The rows `get_by_mission_id` returns, before the join with `brawlers`:
      the mission's rows, oldest first, at most `PageSize` of them. */
  function Page(msgs: seq<Message>, m: int): seq<Row> {
    var sorted := SortByTime(MissionRows(msgs, m));
    sorted[..Min(PageSize, |sorted|)]
  }

  /** The page holds at most 100 of the mission's rows, ascending; when the
      mission has at most 100 rows, all of them. */
  lemma PageSpec(msgs: seq<Message>, m: int)
    ensures |Page(msgs, m)| <= PageSize
    ensures Ascending(Page(msgs, m))
    ensures multiset(Page(msgs, m)) <= multiset(MissionRows(msgs, m))
    ensures forall x :: x in Page(msgs, m) ==> x.msg.missionId == m
    ensures |MissionRows(msgs, m)| <= PageSize ==> multiset(Page(msgs, m)) == multiset(MissionRows(msgs, m))
  {
    var rows := MissionRows(msgs, m);
    var sorted := SortByTime(rows);
    SortByTimeSpec(rows);
    var k := Min(PageSize, |sorted|);
    AscendingPrefix(sorted, k);
    PrefixMultiset(sorted, k);
    forall x | x in sorted[..k] ensures x.msg.missionId == m {
      assert x in multiset(rows);
    }
  }

  lemma AscendingPrefix(rs: seq<Row>, k: nat)
    requires Ascending(rs) && k <= |rs|
    ensures Ascending(rs[..k])
  {
    assert forall t :: 0 <= t < k ==> rs[..k][t] == rs[t];
  }

  lemma PrefixMultiset(rs: seq<Row>, k: nat)
    requires k <= |rs|
    ensures multiset(rs[..k]) <= multiset(rs)
    ensures k == |rs| ==> rs[..k] == rs
  {
    assert rs == rs[..k] + rs[k..];
    assert multiset(rs) == multiset(rs[..k]) + multiset(rs[k..]);
  }

  lemma PrefixOldest(sorted: seq<Row>, k: nat, x: Row, y: Row)
    requires Ascending(sorted) && k <= |sorted|
    requires x in sorted[..k] && y in sorted && y !in sorted[..k]
    ensures x.msg.createdAt <= y.msg.createdAt
  {
    var i :| 0 <= i < k && sorted[..k][i] == x;
    var j :| 0 <= j < |sorted| && sorted[j] == y;
    assert forall t :: 0 <= t < k ==> sorted[..k][t] == sorted[t];
    assert sorted[i] == x;
  }

  /** The page is the oldest rows: every row of the mission left out is no
      earlier than any row returned. */
  lemma PageOldest(msgs: seq<Message>, m: int, x: Row, y: Row)
    requires x in Page(msgs, m) && y in MissionRows(msgs, m) && y !in Page(msgs, m)
    ensures x.msg.createdAt <= y.msg.createdAt
  {
    var rows := MissionRows(msgs, m);
    var sorted := SortByTime(rows);
    SortByTimeSpec(rows);
    assert y in multiset(rows);
    assert y in sorted;
    PrefixOldest(sorted, Min(PageSize, |sorted|), x, y);
  }

  /** A message as the left join with `brawlers` returns it: a system message
      (no author), or an author without a brawler row, has no display name
      and no avatar. */
  datatype MessageView = MessageView(
    id: int,
    missionId: int,
    userId: Option<int>,
    displayName: Option<string>,
    avatarUrl: Option<string>,
    content: string,
    kind: string,
    createdAt: int)

  function ViewOf(brawlers: map<int, Brawler>, x: Row): (v: MessageView)
    ensures v.id == x.id && v.content == x.msg.content && v.kind == x.msg.kind && v.userId == x.msg.userId
    ensures v.missionId == x.msg.missionId && v.createdAt == x.msg.createdAt
    ensures v.displayName.Some? <==> x.msg.userId.Some? && x.msg.userId.value in brawlers
    ensures v.displayName.Some? ==> v.displayName.value == brawlers[x.msg.userId.value].displayName
    ensures v.avatarUrl == if v.displayName.Some? then brawlers[x.msg.userId.value].avatarUrl else None
  {
    var author := x.msg.userId;
    if author.Some? && author.value in brawlers then
      var b := brawlers[author.value];
      MessageView(x.id, x.msg.missionId, author, Some(b.displayName), b.avatarUrl, x.msg.content, x.msg.kind, x.msg.createdAt)
    else
      MessageView(x.id, x.msg.missionId, author, None, None, x.msg.content, x.msg.kind, x.msg.createdAt)
  }

  /** `get_by_mission_id`. */
  function GetByMissionId(s: Store, m: int, f: Faults): (r: Result<seq<MessageView>, Error>)
    ensures r.Ok? <==> !Fails(f, MessageRead)
    ensures r.Ok? ==> |r.value| == |Page(s.messages, m)|
    ensures r.Ok? ==> forall i :: 0 <= i < |r.value| ==> r.value[i] == ViewOf(s.brawlers, Page(s.messages, m)[i])
  {
    if Fails(f, MessageRead) then Err(StoreFailure(f.detail))
    else
      var p := Page(s.messages, m);
      Ok(seq(|p|, i requires 0 <= i < |p| => ViewOf(s.brawlers, p[i])))
  }

  /** A message created in a mission that then has at most 100 messages is
      among those the next read returns. */
  lemma CreateThenRead(s: Store, msg: Message)
    requires |MissionRows(s.messages + [msg], msg.missionId)| <= PageSize
    ensures var s1 := Create(s, msg, NoFaults).s;
      Row(|s1.messages|, msg) in Page(s1.messages, msg.missionId)
  {
    var msgs := s.messages + [msg];
    PageSpec(msgs, msg.missionId);
    assert msgs[|msgs| - 1] == msg;
    assert Row(|msgs|, msg) in multiset(MissionRows(msgs, msg.missionId));
  }
}
