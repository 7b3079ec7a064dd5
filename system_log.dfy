/** `log_and_broadcast_system_message` / `log_and_broadcast_status_change`
    of the later revision: persist a system message, ignoring a failure, and
    then broadcast it to the mission's subscribers regardless. */
module SystemLog {
  import opened Wrappers
  import opened Domain
  import MessageLog
  import opened Db
  import ClientLists

  /** The persisted form of a system line: no author, type "system". */
  function Line(m: int, content: string, now: int): Message {
    Message(m, None, content, "system", now)
  }

  /** One system message. The broadcast happens whether or not the persist
      succeeded, and nothing but the message log changes. */
  function Log(t: Trail, m: int, content: string, now: int, f: Faults): (t': Trail)
    ensures t'.fx == t.fx + [Publish(m, SystemEvent(m, content))]
    ensures t'.s == t.s.(messages := t'.s.messages)
    ensures t'.s.messages == if InsertFails(f, Line(m, content, now)) then t.s.messages else t.s.messages + [Line(m, content, now)]
  {
    Trail(MessageLog.Create(t.s, Line(m, content, now), f).s, t.fx + [Publish(m, SystemEvent(m, content))])
  }

  /** The broadcasts of `lines`, in order. */
  function Publishes(m: int, lines: seq<string>): (fx: seq<Effect>)
    ensures |fx| == |lines|
    ensures forall i :: 0 <= i < |lines| ==> fx[i] == Publish(m, SystemEvent(m, lines[i]))
  {
    if lines == [] then [] else Publishes(m, lines[..|lines| - 1]) + [Publish(m, SystemEvent(m, lines[|lines| - 1]))]
  }

  /** The persisted forms of `lines`, in order. */
  function Lines(m: int, lines: seq<string>, now: int): (ms: seq<Message>)
    ensures |ms| == |lines|
    ensures forall i :: 0 <= i < |lines| ==> ms[i] == Line(m, lines[i], now)
  {
    if lines == [] then [] else Lines(m, lines[..|lines| - 1], now) + [Line(m, lines[|lines| - 1], now)]
  }

  /** Whether a row's insert succeeds under `f`. */
  function Kept(f: Faults): Message -> bool {
    x => !InsertFails(f, x)
  }

  /** The persisted forms of `lines` whose insert succeeds, in order. */
  function Persisted(m: int, lines: seq<string>, now: int, f: Faults): seq<Message> {
    ClientLists.Filter(Lines(m, lines, now), Kept(f))
  }

  /** The persisted lines are exactly those whose insert succeeds, in the
      order of `lines`; without failing inserts, all of them. */
  lemma PersistedSpec(m: int, lines: seq<string>, now: int, f: Faults)
    ensures forall x :: x in Persisted(m, lines, now, f) <==> x in Lines(m, lines, now) && !InsertFails(f, x)
    ensures ClientLists.Subsequence(Persisted(m, lines, now, f), Lines(m, lines, now))
    ensures f.failingMessages == {} ==> Persisted(m, lines, now, f) == Lines(m, lines, now)
  {
    ClientLists.FilterMembers(Lines(m, lines, now), Kept(f));
    ClientLists.FilterSubsequence(Lines(m, lines, now), Kept(f));
    if f.failingMessages == {} {
      ClientLists.FilterKeepsAll(Lines(m, lines, now), Kept(f));
    }
  }

  /** "{display} earned achievement: {name}" for each awarded name, in order. */
  function EarnedLines(display: string, names: seq<string>): (r: seq<string>)
    ensures |r| == |names|
    ensures forall i :: 0 <= i < |names| ==> r[i] == display + " earned achievement: " + names[i]
  {
    if names == [] then [] else EarnedLines(display, names[..|names| - 1]) + [display + " earned achievement: " + names[|names| - 1]]
  }

  /** The system messages `lines`, one after another. */
  function LogAll(t: Trail, m: int, lines: seq<string>, now: int, f: Faults): Trail {
    if lines == [] then t else Log(LogAll(t, m, lines[..|lines| - 1], now, f), m, lines[|lines| - 1], now, f)
  }

  /** Logging a list broadcasts each line once, in order, and changes only
      the message log, which gains, in order, each line whose insert
      succeeds. */
  lemma {:induction false} LogAllSpec(t: Trail, m: int, lines: seq<string>, now: int, f: Faults)
    ensures LogAll(t, m, lines, now, f).fx == t.fx + Publishes(m, lines)
    ensures LogAll(t, m, lines, now, f).s == t.s.(messages := LogAll(t, m, lines, now, f).s.messages)
    ensures LogAll(t, m, lines, now, f).s.messages == t.s.messages + Persisted(m, lines, now, f)
  {
    if lines != [] {
      var init := lines[..|lines| - 1];
      var line := Line(m, lines[|lines| - 1], now);
      LogAllSpec(t, m, init, now, f);
      assert Lines(m, lines, now) == Lines(m, init, now) + [line];
      ClientLists.FilterAppend(Lines(m, init, now), [line], Kept(f));
      assert ClientLists.Filter([line], Kept(f)) == if InsertFails(f, line) then [] else [line];
    }
  }

  /** `log_and_broadcast_...` against the database; the broadcast is returned
      as an effect. */
  method LogTo(db: Database, m: int, content: string, now: int, f: Faults, fx0: seq<Effect>) returns (fx: seq<Effect>)
    modifies db
    ensures Trail(db.Snapshot(), fx) == Log(Trail(old(db.Snapshot()), fx0), m, content, now, f)
  {
    var _ := db.CreateMessage(Line(m, content, now), f);
    fx := fx0 + [Publish(m, SystemEvent(m, content))];
  }

  /** The `for name in awarded` loops: one system message per line. */
  method LogAllTo(db: Database, m: int, lines: seq<string>, now: int, f: Faults, fx0: seq<Effect>) returns (fx: seq<Effect>)
    modifies db
    ensures Trail(db.Snapshot(), fx) == LogAll(Trail(old(db.Snapshot()), fx0), m, lines, now, f)
  {
    fx := fx0;
    var i := 0;
    while i < |lines|
      invariant 0 <= i <= |lines|
      invariant Trail(db.Snapshot(), fx) == LogAll(Trail(old(db.Snapshot()), fx0), m, lines[..i], now, f)
    {
      assert lines[..i + 1][..i] == lines[..i];
      fx := LogTo(db, m, lines[i], now, f, fx);
      i := i + 1;
    }
    assert lines[..i] == lines;
  }
}
