/** The deadline watcher: one pass over the open, dated tasks that reminds
    of each task at most once, either shortly before its due time or in the
    hour after it. Times are integer seconds. */
module Notifier {
  import opened Text
  import opened Models

  /** Fifteen minutes: the "approaching" window is `(0, Fifteen]`. */
  const Fifteen := 15 * 60
  /** One hour: the "overdue" window is `(-Hour, 0]`. */
  const Hour := 60 * 60

  datatype Window = Approaching | Overdue | Outside

  /** The window the time left before the due moment falls into. */
  function WindowOf(timeLeft: int): (w: Window)
    ensures w == Approaching <==> 0 < timeLeft <= Fifteen
    ensures w == Overdue <==> -Hour < timeLeft <= 0
    ensures w == Outside <==> timeLeft > Fifteen || timeLeft <= -Hour
  {
    if 0 < timeLeft <= Fifteen then Approaching
    else if -Hour < timeLeft <= 0 then Overdue
    else Outside
  }

  /** The whole minutes left, `int(seconds / 60)` on a positive time left. */
  function MinutesLeft(timeLeft: int): (m: int)
    requires 0 < timeLeft <= Fifteen
    ensures 0 <= m <= 15
    ensures m * 60 <= timeLeft < (m + 1) * 60
  {
    timeLeft / 60
  }

  /** What the desktop notification facility is handed. */
  datatype Notification = Notification(title: string, message: string)

  /** `send_notification`: the application name is prefixed to the title. */
  function Notify(title: string, message: string): (n: Notification)
    ensures n.title == "TaskScope: " + title && n.message == message
  {
    Notification("TaskScope: " + title, message)
  }

  /** The texts of the two notifications: the minutes left while
      approaching; a fixed title and a message naming the task once overdue. */
  function ApproachingMessage(minutes: nat): string {
    NatToString(minutes) + " dakika kaldı!"
  }

  const OverdueTitle := "Süresi Doldu!"

  function OverdueMessage(title: string): string {
    "'" + title + "' görevinin süresi doldu."
  }

  /** A notification together with the id of the task it is about (the id
      is not shown; it is what the at-most-once guard records). */
  datatype Reminder = Reminder(taskId: int, note: Notification)

  /** The query's filter: only open tasks with a due date are looked at. */
  predicate Examined(t: Task) {
    !t.isDone && t.due.Some?
  }

  /** The task is examined and its time left lies in one of the two windows. */
  predicate Due(t: Task, now: int) {
    Examined(t) && WindowOf(t.due.value - now) != Outside
  }

  /** The notification for a task in a window: the minutes left while
      approaching, the fixed "time is up" title naming the task once overdue. */
  function Note(t: Task, now: int): (n: Notification)
    requires Due(t, now)
    ensures WindowOf(t.due.value - now) == Approaching ==>
              n == Notify(t.title, ApproachingMessage(MinutesLeft(t.due.value - now)))
    ensures WindowOf(t.due.value - now) == Overdue ==>
              n == Notify(OverdueTitle, OverdueMessage(t.title))
  {
    var timeLeft := t.due.value - now;
    if WindowOf(timeLeft) == Approaching then
      Notify(t.title, ApproachingMessage(MinutesLeft(timeLeft)))
    else
      Notify(OverdueTitle, OverdueMessage(t.title))
  }

  /** The reminders sent so far in a pass and the guard set after them. */
  datatype PassResult = PassResult(sent: seq<Reminder>, notified: set<int>)

  /** One turn of the loop: a task in a window whose id is not yet recorded
      is reminded of and recorded; every other task changes nothing. */
  function Visit(t: Task, now: int, notified: set<int>): (r: PassResult)
    ensures !Due(t, now) || t.id in notified ==> r == PassResult([], notified)
    ensures Due(t, now) && t.id !in notified ==>
              r == PassResult([Reminder(t.id, Note(t, now))], notified + {t.id})
  {
    if Due(t, now) && t.id !in notified then PassResult([Reminder(t.id, Note(t, now))], notified + {t.id})
    else PassResult([], notified)
  }

  /** `check_deadlines` over a snapshot of the rows, in row order. */
  function Pass(rows: seq<Task>, now: int, notified: set<int>): PassResult {
    if rows == [] then PassResult([], notified)
    else
      var p := Pass(rows[..|rows| - 1], now, notified);
      var v := Visit(rows[|rows| - 1], now, p.notified);
      PassResult(p.sent + v.sent, v.notified)
  }

  function IdsOf(sent: seq<Reminder>): set<int> {
    set r | r in sent :: r.taskId
  }

  /** The guard's bookkeeping: nothing sent was recorded before, nothing is
      sent twice, and exactly the ids sent are added to the set. */
  ghost predicate FreshLog(before: set<int>, r: PassResult) {
    && (forall k | 0 <= k < |r.sent| :: r.sent[k].taskId !in before)
    && (forall i, j | 0 <= i < j < |r.sent| :: r.sent[i].taskId != r.sent[j].taskId)
    && r.notified == before + IdsOf(r.sent)
  }

  /** Two runs in a row, the second starting from the first's set, keep the
      bookkeeping. */
  lemma FreshLogChain(before: set<int>, a: PassResult, b: PassResult)
    requires FreshLog(before, a) && FreshLog(a.notified, b)
    ensures FreshLog(before, PassResult(a.sent + b.sent, b.notified))
  {
    var s := a.sent + b.sent;
    forall i, j | 0 <= i < j < |s| ensures s[i].taskId != s[j].taskId {
      if i < |a.sent| && j >= |a.sent| {
        assert s[i] == a.sent[i] && s[j] == b.sent[j - |a.sent|];
        assert s[i].taskId in IdsOf(a.sent);
      }
    }
    assert IdsOf(s) == IdsOf(a.sent) + IdsOf(b.sent) by {
      forall x | x in s ensures x in a.sent || x in b.sent {}
    }
  }

  lemma VisitFresh(t: Task, now: int, notified: set<int>)
    ensures FreshLog(notified, Visit(t, now, notified))
  {
    var r := Visit(t, now, notified);
    if r.sent != [] {
      assert r.sent[0] in r.sent;
      assert IdsOf(r.sent) == {t.id};
    } else {
      assert IdsOf(r.sent) == {};
    }
  }

  /** A pass sends no id twice and none already recorded, and records
      exactly what it sends; in particular the set only grows. */
  lemma {:induction false} PassFresh(rows: seq<Task>, now: int, notified: set<int>)
    ensures FreshLog(notified, Pass(rows, now, notified))
    ensures notified <= Pass(rows, now, notified).notified
  {
    if rows == [] {
      assert IdsOf([]) == {};
    } else {
      var p := Pass(rows[..|rows| - 1], now, notified);
      PassFresh(rows[..|rows| - 1], now, notified);
      VisitFresh(rows[|rows| - 1], now, p.notified);
      FreshLogChain(notified, p, Visit(rows[|rows| - 1], now, p.notified));
    }
  }

  /** Every reminder sent is the note for a task of the snapshot that is in
      a window. */
  lemma {:induction false} PassSound(rows: seq<Task>, now: int, notified: set<int>)
    ensures forall r | r in Pass(rows, now, notified).sent ::
              exists t | t in rows :: Due(t, now) && r == Reminder(t.id, Note(t, now))
  {
    if rows != [] {
      var init := rows[..|rows| - 1];
      PassSound(init, now, notified);
      var p := Pass(init, now, notified);
      var last := rows[|rows| - 1];
      forall r | r in Pass(rows, now, notified).sent
        ensures exists t | t in rows :: Due(t, now) && r == Reminder(t.id, Note(t, now))
      {
        if r in p.sent {
          var t :| t in init && Due(t, now) && r == Reminder(t.id, Note(t, now));
          assert t in rows;
        } else {
          assert last in rows;
        }
      }
    }
  }

  /** Every task of the snapshot that is in a window has its id recorded
      after the pass: it was reminded of now or earlier. */
  lemma {:induction false} PassComplete(rows: seq<Task>, now: int, notified: set<int>)
    ensures forall t | t in rows && Due(t, now) :: t.id in Pass(rows, now, notified).notified
  {
    if rows != [] {
      var init := rows[..|rows| - 1];
      PassComplete(init, now, notified);
      PassFresh(rows, now, notified);
      var p := Pass(init, now, notified);
      PassFresh(init, now, notified);
      forall t | t in rows && Due(t, now) ensures t.id in Pass(rows, now, notified).notified {
        if t in init {
          assert t.id in p.notified;
        } else {
          assert t == rows[|rows| - 1];
        }
      }
    }
  }

  /** When no task of the snapshot is in a window (every one is done,
      undated, more than fifteen minutes ahead or an hour or more late),
      the pass is silent and the set stays as it was. */
  lemma {:induction false} PassQuiet(rows: seq<Task>, now: int, notified: set<int>)
    requires forall t | t in rows :: !Due(t, now)
    ensures Pass(rows, now, notified) == PassResult([], notified)
  {
    if rows != [] {
      var init := rows[..|rows| - 1];
      assert forall t | t in init :: t in rows;
      PassQuiet(init, now, notified);
      assert rows[|rows| - 1] in rows;
    }
  }

  /** A task whose id is already recorded is never reminded of again. */
  lemma PassSkipsNotified(rows: seq<Task>, now: int, notified: set<int>)
    ensures forall r | r in Pass(rows, now, notified).sent :: r.taskId !in notified
  {
    PassFresh(rows, now, notified);
    var s := Pass(rows, now, notified).sent;
    forall r | r in s ensures r.taskId !in notified {
      var k :| 0 <= k < |s| && s[k] == r;
    }
  }

  /** One pass of the worker loop: the rows it reads and its clock. */
  datatype Snapshot = Snapshot(rows: seq<Task>, now: int)

  /** The passes of one worker, in order, all sharing its set. */
  function Run(passes: seq<Snapshot>, notified: set<int>): PassResult {
    if passes == [] then PassResult([], notified)
    else
      var p := Run(passes[..|passes| - 1], notified);
      var last := passes[|passes| - 1];
      var q := Pass(last.rows, last.now, p.notified);
      PassResult(p.sent + q.sent, q.notified)
  }

  /** Over a worker's lifetime each task is reminded of at most once: a
      task reminded as approaching is never reminded as overdue. */
  lemma {:induction false} AtMostOncePerLifetime(passes: seq<Snapshot>)
    ensures var s := Run(passes, {}).sent;
            forall i, j | 0 <= i < j < |s| :: s[i].taskId != s[j].taskId
  {
    RunFresh(passes, {});
  }

  lemma {:induction false} RunFresh(passes: seq<Snapshot>, notified: set<int>)
    ensures FreshLog(notified, Run(passes, notified))
  {
    if passes == [] {
      assert IdsOf([]) == {};
    } else {
      var p := Run(passes[..|passes| - 1], notified);
      var last := passes[|passes| - 1];
      RunFresh(passes[..|passes| - 1], notified);
      PassFresh(last.rows, last.now, p.notified);
      FreshLogChain(notified, p, Pass(last.rows, last.now, p.notified));
    }
  }

  /** The notifications the facility accepted, when it refuses those for
      which `fails` holds. */
  function Delivered(sent: seq<Reminder>, fails: Notification -> bool): (d: seq<Reminder>)
    ensures forall r | r in d :: r in sent && !fails(r.note)
    ensures forall r | r in sent && !fails(r.note) :: r in d
  {
    if sent == [] then []
    else
      var init := Delivered(sent[..|sent| - 1], fails);
      var last := sent[|sent| - 1];
      assert forall r | r in sent :: r in sent[..|sent| - 1] || r == last;
      init + (if fails(last.note) then [] else [last])
  }

  /** The loop's step: a pass over one more row adds what visiting it adds. */
  lemma PassAdvance(rows: seq<Task>, i: int, now: int, start: set<int>, sent: seq<Reminder>, notified: set<int>)
    requires 0 <= i < |rows|
    requires Pass(rows[..i], now, start) == PassResult(sent, notified)
    ensures var v := Visit(rows[i], now, notified);
            Pass(rows[..i + 1], now, start) == PassResult(sent + v.sent, v.notified)
  {
    assert rows[..i + 1][..i] == rows[..i];
  }

  /** Delivery is decided reminder by reminder. */
  lemma {:induction false} DeliveredAppend(a: seq<Reminder>, b: seq<Reminder>, fails: Notification -> bool)
    ensures Delivered(a + b, fails) == Delivered(a, fails) + Delivered(b, fails)
    decreases |b|
  {
    if b == [] {
      assert a + b == a;
    } else {
      var init, last := b[..|b| - 1], b[|b| - 1];
      var tail := if fails(last.note) then [] else [last];
      DeliveredAppend(a, init, fails);
      assert (a + b)[..|a + b| - 1] == a + init && (a + b)[|a + b| - 1] == last;
      calc {
        Delivered(a + b, fails);
        Delivered(a + init, fails) + tail;
        (Delivered(a, fails) + Delivered(init, fails)) + tail;
        Delivered(a, fails) + (Delivered(init, fails) + tail);
        Delivered(a, fails) + Delivered(b, fails);
      }
    }
  }

  /** The loop's approaching branch sends what `Visit` sends. */
  lemma ApproachingVisit(t: Task, now: int, notified: set<int>)
    requires !t.isDone && t.due.Some? && 0 < t.due.value - now <= Fifteen && t.id !in notified
    ensures Visit(t, now, notified)
         == PassResult([Reminder(t.id, Notify(t.title, ApproachingMessage((t.due.value - now) / 60)))],
                       notified + {t.id})
  {
  }

  /** The loop's overdue branch sends what `Visit` sends. */
  lemma OverdueVisit(t: Task, now: int, notified: set<int>)
    requires !t.isDone && t.due.Some? && -Hour < t.due.value - now <= 0 && t.id !in notified
    ensures Visit(t, now, notified)
         == PassResult([Reminder(t.id, Notify(OverdueTitle, OverdueMessage(t.title)))],
                       notified + {t.id})
  {
  }

  /** The worker's state: the ids of the tasks already reminded of. */
  class DeadlineWatcher {
    var notified: set<int>

    constructor ()
      ensures notified == {}
    {
      notified := {};
    }

    /** `send_notification`: hands the note to the facility; a failure is
        caught and only reported back here as `false`. */
    static method Send(n: Notification, fails: Notification -> bool) returns (ok: bool)
      ensures ok <==> !fails(n)
    {
      ok := !fails(n);
    }

    /** One row of `check_deadlines`' loop: the window test, the guard,
        the send and the recording of the id. */
    method CheckTask(t: Task, now: int, fails: Notification -> bool) returns (sent: seq<Reminder>, got: seq<Reminder>)
      modifies this
      ensures PassResult(sent, notified) == Visit(t, now, old(notified))
      ensures got == Delivered(sent, fails)
    {
      sent, got := [], [];
      if !t.isDone && t.due.Some? {
        var timeLeft := t.due.value - now;
        if 0 < timeLeft <= Fifteen {
          if t.id !in notified {
            ApproachingVisit(t, now, notified);
            var n := Notify(t.title, ApproachingMessage(timeLeft / 60));
            var ok := Send(n, fails);
            sent := [Reminder(t.id, n)];
            if ok {
              got := sent;
            }
            notified := notified + {t.id};
          }
        } else if -Hour < timeLeft <= 0 {
          if t.id !in notified {
            OverdueVisit(t, now, notified);
            var n := Notify(OverdueTitle, OverdueMessage(t.title));
            var ok := Send(n, fails);
            sent := [Reminder(t.id, n)];
            if ok {
              got := sent;
            }
            notified := notified + {t.id};
          }
        }
      }
    }

    /** `check_deadlines` on a snapshot of the rows: the reminders attempted
        follow the pass, whichever of them the facility refuses, and the set
        is updated the same way. */
    method CheckDeadlines(rows: seq<Task>, now: int, fails: Notification -> bool)
      returns (attempted: seq<Reminder>, delivered: seq<Reminder>)
      modifies this
      ensures attempted == Pass(rows, now, old(notified)).sent
      ensures notified == Pass(rows, now, old(notified)).notified
      ensures delivered == Delivered(attempted, fails)
    {
      attempted, delivered := [], [];
      var i := 0;
      while i < |rows|
        invariant 0 <= i <= |rows|
        invariant PassResult(attempted, notified) == Pass(rows[..i], now, old(notified))
        invariant delivered == Delivered(attempted, fails)
      {
        var t := rows[i];
        PassAdvance(rows, i, now, old(notified), attempted, notified);
        var sent, got := CheckTask(t, now, fails);
        DeliveredAppend(attempted, sent, fails);
        attempted, delivered := attempted + sent, delivered + got;
        i := i + 1;
      }
      assert rows[..|rows|] == rows;
    }
  }
}
