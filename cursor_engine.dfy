/**
 * The cursor-based auto-reply worker of cus_rep3.py.
 *
 * Each cycle fetches the mentions newer than the cursor (`last_seen_id`), walks them
 * from the last fetched to the first, resolves each author's handle, replies when the
 * lower-cased handle has a rule, and moves the cursor to every mention it finishes.
 * Any exception ends the cycle: one error line is logged and the next cycle starts.
 */
module CursorEngine {
  import opened Seqs
  import opened Text
  import opened Platform
  import opened Store

  /** What `get_access_level` reports about the account's API plan. */
  datatype AccessLevel = Elevated | Basic | Unknown

  /** The outcome of the probe call `client.get_me()`: it answers, or raises with a message. */
  datatype Probe = Answered | Refused(message: string)

  function GetAccessLevel(probe: Probe): (level: AccessLevel)
    ensures level == Elevated <==> probe.Answered?
    ensures level == Basic <==> probe.Refused? && Contains(probe.message, "403")
    ensures level == Unknown <==> probe.Refused? && !Contains(probe.message, "403")
  {
    match probe
    case Answered => Elevated
    case Refused(message) => if Contains(message, "403") then Basic else Unknown
  }

  /** A refused probe reads as the Basic plan exactly when "403" occurs somewhere in the error text. */
  lemma BasicIffForbidden(message: string)
    ensures GetAccessLevel(Refused(message)) == Basic <==> exists i :: OccursAt(message, "403", i)
  {
    ContainsAt(message, "403");
  }

  /**
   * A fetched mention: its id, what resolving its author's handle does
   * (`client.get_user(...).data.username`), and what posting a reply to it would do.
   */
  datatype Tweet = Tweet(id: int, author: Fetch<string>, post: Call)

  /** What one cycle's calls do: fetching the mentions (with `get_me`) and loading the rules file. */
  datatype Poll = Poll(mentions: Fetch<seq<Tweet>>, store: Fetch<Rules>)

  /** A line of the activity log file, without its timestamp. */
  datatype Event = Disabled | Started | Replied(user: string, text: string) | Failed(detail: string)

  /** The worker's cursor (`last_seen_id`), the activity log, and the replies posted so far. */
  datatype Trace = Trace(cursor: Option<int>, log: seq<Event>, outbox: seq<Reply>)

  /** Part way through a batch: still going, or stopped by an exception carrying its message. */
  datatype Step = Going(trace: Trace) | Stopped(trace: Trace, error: string)

  /**
   * One pass of the inner loop body: it raises exactly when the mention trips, and then changes
   * nothing; otherwise it posts the reply the mention earns and moves the cursor to it.
   */
  function AfterMention(t: Trace, rules: Rules, m: Tweet): (r: Step)
    ensures r.Stopped? <==> Trips(rules, m)
    ensures r.Stopped? ==> r.trace == t
    ensures r.Going? ==> r.trace.cursor == Some(m.id) && r.trace.outbox == t.outbox + Answer(rules, m)
  {
    match m.author
    case Raised(e) => Stopped(t, e)
    case Got(handle) =>
      var user := Lower(handle);
      if user in rules then
        match m.post
        case Threw(e) => Stopped(t, e)
        case Done =>
          var text := ReplyText(user, rules[user]);
          Going(Trace(Some(m.id), t.log + [Replied(user, text)], t.outbox + [Reply(m.id, user, text)]))
      else
        Going(t.(cursor := Some(m.id)))
  }

  /** The inner loop: `ms` is walked from its last element to its first, as `reversed(mentions.data)` does. */
  function AfterBatch(t: Trace, rules: Rules, ms: seq<Tweet>): Step
    decreases |ms|
  {
    if ms == [] then Going(t)
    else
      match AfterBatch(t, rules, ms[1..])
      case Going(t') => AfterMention(t', rules, ms[0])
      case Stopped(t', e) => Stopped(t', e)
  }

  /** One cycle of the outer loop. An empty fetch neither loads the rules nor moves the cursor. */
  function AfterPoll(t: Trace, p: Poll): (r: Trace)
    ensures p.mentions == Got([]) ==> r == t
  {
    match p.mentions
    case Raised(e) => t.(log := t.log + [Failed(e)])
    case Got(ms) =>
      if ms == [] then t
      else
        match p.store
        case Raised(e) => t.(log := t.log + [Failed(e)])
        case Got(rules) =>
          match AfterBatch(t, rules, ms)
          case Going(t') => t'
          case Stopped(t', e) => t'.(log := t'.log + [Failed(e)])
  }

  /** The outer loop over a finite run of cycles. */
  function AfterPolls(t: Trace, polls: seq<Poll>): Trace
    decreases |polls|
  {
    if polls == [] then t else AfterPoll(AfterPolls(t, polls[..|polls| - 1]), polls[|polls| - 1])
  }

  // ---------------------------------------------------------------------------
  // Reference definitions: what a failure-free batch does

  /** The reply a mention earns under `rules`: one when its handle has a rule, none otherwise. */
  function Answer(rules: Rules, m: Tweet): seq<Reply> {
    match m.author
    case Raised(_) => []
    case Got(handle) =>
      var user := Lower(handle);
      if user in rules then [Reply(m.id, user, ReplyText(user, rules[user]))] else []
  }

  /** The replies earned by `ms`, in the order of `ms`. */
  function Answers(rules: Rules, ms: seq<Tweet>): seq<Reply>
    decreases |ms|
  {
    if ms == [] then [] else Answers(rules, ms[..|ms| - 1]) + Answer(rules, ms[|ms| - 1])
  }

  /** The success lines logged for replies `rs`. */
  function Logged(rs: seq<Reply>): seq<Event>
    decreases |rs|
  {
    if rs == [] then [] else Logged(rs[..|rs| - 1]) + [Replied(rs[|rs| - 1].user, rs[|rs| - 1].text)]
  }

  /** Considering `m` raises: its author cannot be resolved, or it has a rule and the post fails. */
  predicate Trips(rules: Rules, m: Tweet) {
    || m.author.Raised?
    || (Lower(m.author.value) in rules && m.post.Threw?)
  }

  function TripError(rules: Rules, m: Tweet): string
    requires Trips(rules, m)
  {
    if m.author.Raised? then m.author.error else m.post.error
  }

  /** Where a batch `ms` with no failure leaves the trace. */
  function Finished(t: Trace, rules: Rules, ms: seq<Tweet>): Trace {
    var rs := Answers(rules, Reversed(ms));
    Trace(if ms == [] then t.cursor else Some(ms[0].id), t.log + Logged(rs), t.outbox + rs)
  }

  lemma {:induction false} AnswersOfSnoc(rules: Rules, ms: seq<Tweet>, m: Tweet)
    ensures Answers(rules, ms + [m]) == Answers(rules, ms) + Answer(rules, m)
  {
    assert (ms + [m])[..|ms|] == ms;
  }

  /** Walking the first fetched mention last adds its answer after the others'. */
  lemma AnswersOfReversed(rules: Rules, ms: seq<Tweet>)
    requires ms != []
    ensures Answers(rules, Reversed(ms)) == Answers(rules, Reversed(ms[1..])) + Answer(rules, ms[0])
  {
    assert Reversed(ms) == Reversed(ms[1..]) + [ms[0]];
    AnswersOfSnoc(rules, Reversed(ms[1..]), ms[0]);
  }

  /** One more reply adds its success line after the others'. */
  lemma AppendReply(log: seq<Event>, outbox: seq<Reply>, rs: seq<Reply>, rep: Reply)
    ensures log + Logged(rs) + [Replied(rep.user, rep.text)] == log + Logged(rs + [rep])
    ensures outbox + rs + [rep] == outbox + (rs + [rep])
  {
    assert (rs + [rep])[..|rs|] == rs;
  }

  /**
   * A batch in which nothing raises replies to every mention whose handle has a rule, in the
   * reverse of the fetched order, logs one success line per reply, and leaves the cursor on the
   * first fetched mention.
   */
  lemma {:induction false} CleanBatch(t: Trace, rules: Rules, ms: seq<Tweet>)
    requires forall i :: 0 <= i < |ms| ==> !Trips(rules, ms[i])
    ensures AfterBatch(t, rules, ms) == Going(Finished(t, rules, ms))
  {
    if ms != [] {
      CleanBatch(t, rules, ms[1..]);
      FinishedStep(t, rules, ms);
    }
  }

  /** Finishing the first fetched mention, walked last, after the others takes the batch to `Finished`. */
  lemma FinishedStep(t: Trace, rules: Rules, ms: seq<Tweet>)
    requires ms != [] && !Trips(rules, ms[0])
    ensures AfterMention(Finished(t, rules, ms[1..]), rules, ms[0]) == Going(Finished(t, rules, ms))
  {
    var m := ms[0];
    var rs := Answers(rules, Reversed(ms[1..]));
    AnswersOfReversed(rules, ms);
    var user := Lower(m.author.value);
    if user in rules {
      var rep := Reply(m.id, user, ReplyText(user, rules[user]));
      assert Answer(rules, m) == [rep];
      AppendReply(t.log, t.outbox, rs, rep);
    } else {
      assert Answer(rules, m) == [];
      assert rs + [] == rs;
    }
  }

  /**
   * When the `k`-th mention raises and every later one (walked earlier) went through, the batch
   * stops there: the cursor rests on the last mention it finished and the earlier-walked mentions
   * keep their replies; the mentions before `k` are never looked at.
   */
  lemma {:induction false} StoppedBatch(t: Trace, rules: Rules, ms: seq<Tweet>, k: int)
    requires 0 <= k < |ms| && Trips(rules, ms[k])
    requires forall j :: k < j < |ms| ==> !Trips(rules, ms[j])
    ensures AfterBatch(t, rules, ms) == Stopped(Finished(t, rules, ms[k + 1..]), TripError(rules, ms[k]))
  {
    if k == 0 {
      assert ms[1..] == ms[k + 1..];
      CleanBatch(t, rules, ms[1..]);
    } else {
      assert ms[1..][k..] == ms[k + 1..];
      StoppedBatch(t, rules, ms[1..], k - 1);
    }
  }

  /** A batch that stops part way stays stopped: what is left of the list is never looked at. */
  lemma {:induction false} StoppedStaysStopped(t: Trace, rules: Rules, ms: seq<Tweet>, j: int)
    requires 0 <= j <= |ms| && AfterBatch(t, rules, ms[j..]).Stopped?
    ensures AfterBatch(t, rules, ms) == AfterBatch(t, rules, ms[j..])
    decreases j
  {
    if j > 0 {
      assert ms[1..][j - 1..] == ms[j..];
      StoppedStaysStopped(t, rules, ms[1..], j - 1);
    }
  }

  /** A cycle in which nothing raises: its replies, log lines and final cursor. */
  lemma CleanCycle(t: Trace, ms: seq<Tweet>, rules: Rules)
    requires forall i :: 0 <= i < |ms| ==> !Trips(rules, ms[i])
    ensures AfterPoll(t, Poll(Got(ms), Got(rules))) == Finished(t, rules, ms)
    ensures ms != [] ==> AfterPoll(t, Poll(Got(ms), Got(rules))).cursor == Some(ms[0].id)
  {
    CleanBatch(t, rules, ms);
  }

  /** A cycle that raises at mention `k`: exactly one error line, and the cursor on the last finished mention. */
  lemma FailedCycle(t: Trace, ms: seq<Tweet>, rules: Rules, k: int)
    requires 0 <= k < |ms| && Trips(rules, ms[k])
    requires forall j :: k < j < |ms| ==> !Trips(rules, ms[j])
    ensures var f := Finished(t, rules, ms[k + 1..]);
            AfterPoll(t, Poll(Got(ms), Got(rules))) == f.(log := f.log + [Failed(TripError(rules, ms[k]))])
    ensures AfterPoll(t, Poll(Got(ms), Got(rules))).cursor == if k == |ms| - 1 then t.cursor else Some(ms[k + 1].id)
  {
    StoppedBatch(t, rules, ms, k);
  }

  // ---------------------------------------------------------------------------
  // The cursor and the replies over a run

  /** `id` lies beyond the cursor: what `since_id=last_seen_id` asks the API for. */
  predicate Beyond(cursor: Option<int>, id: int) {
    cursor.None? || cursor.value < id
  }

  /** The cursor `a` is not behind the cursor `b`. */
  predicate NotBehind(a: Option<int>, b: Option<int>) {
    b.None? || (a.Some? && b.value <= a.value)
  }

  /** What the mentions endpoint promises: newest first, and only mentions beyond the cursor. */
  predicate SinceCursor(cursor: Option<int>, p: Poll) {
    p.mentions.Got? ==>
      && (forall i, j :: 0 <= i < j < |p.mentions.value| ==> p.mentions.value[j].id < p.mentions.value[i].id)
      && (forall i :: 0 <= i < |p.mentions.value| ==> Beyond(cursor, p.mentions.value[i].id))
  }

  /** Every poll of a run keeps the endpoint's promise relative to the cursor of its time. */
  predicate Honest(t: Trace, polls: seq<Poll>)
    decreases |polls|
  {
    polls == [] ||
    (Honest(t, polls[..|polls| - 1]) && SinceCursor(AfterPolls(t, polls[..|polls| - 1]).cursor, polls[|polls| - 1]))
  }

  /** The replies posted since position `n` answer rising tweet ids, none beyond the cursor. */
  predicate Ordered(t: Trace, n: nat) {
    && n <= |t.outbox|
    && RisingTargets(t.outbox[n..])
    && (forall i :: n <= i < |t.outbox| ==> t.cursor.Some? && t.outbox[i].inReplyTo <= t.cursor.value)
  }

  lemma {:induction false} BatchKeepsOrder(t: Trace, rules: Rules, ms: seq<Tweet>, n: nat)
    requires Ordered(t, n)
    requires forall i, j :: 0 <= i < j < |ms| ==> ms[j].id < ms[i].id
    requires forall i :: 0 <= i < |ms| ==> Beyond(t.cursor, ms[i].id)
    ensures Ordered(AfterBatch(t, rules, ms).trace, n)
    ensures var c := AfterBatch(t, rules, ms).trace.cursor;
            c == t.cursor || exists i :: 0 <= i < |ms| && c == Some(ms[i].id)
  {
    if ms != [] {
      var rest := ms[1..];
      BatchKeepsOrder(t, rules, rest, n);
      var s := AfterBatch(t, rules, rest);
      var t' := s.trace;
      assert Beyond(t'.cursor, ms[0].id) by {
        if t'.cursor != t.cursor {
          var i :| 0 <= i < |rest| && t'.cursor == Some(rest[i].id);
          assert rest[i] == ms[i + 1];
        }
      }
      if s.Going? {
        MentionKeepsOrder(t', rules, ms[0], n);
        var c := AfterMention(t', rules, ms[0]).trace.cursor;
        if c != t'.cursor && c != t.cursor {
          assert c == Some(ms[0].id);
        } else if c != t.cursor {
          var i :| 0 <= i < |rest| && c == Some(rest[i].id);
          assert rest[i] == ms[i + 1];
        }
      }
    }
  }

  /** A mention beyond the cursor keeps `Ordered`, and the cursor stays put or moves to that mention. */
  lemma MentionKeepsOrder(t: Trace, rules: Rules, m: Tweet, n: nat)
    requires Ordered(t, n) && Beyond(t.cursor, m.id)
    ensures Ordered(AfterMention(t, rules, m).trace, n)
    ensures AfterMention(t, rules, m).trace.cursor in {t.cursor, Some(m.id)}
  {
    var s := AfterMention(t, rules, m);
    if s.Going? {
      var a := Answer(rules, m);
      if a == [] {
        assert s.trace.outbox == t.outbox;
        Advance(t, s.trace, n);
      } else {
        var rep := a[0];
        assert a == [rep] && rep.inReplyTo == m.id;
        AppendKeepsOrder(t, s.trace, rep, n);
      }
    }
  }

  /** Moving the cursor forward without replying keeps `Ordered`. */
  lemma Advance(t: Trace, r: Trace, n: nat)
    requires Ordered(t, n) && r.outbox == t.outbox && NotBehind(r.cursor, t.cursor)
    ensures Ordered(r, n)
  {
  }

  /** A reply to a mention beyond the cursor, with the cursor moved onto it, keeps `Ordered`. */
  lemma AppendKeepsOrder(t: Trace, r: Trace, rep: Reply, n: nat)
    requires Ordered(t, n) && Beyond(t.cursor, rep.inReplyTo)
    requires r.outbox == t.outbox + [rep] && r.cursor == Some(rep.inReplyTo)
    ensures Ordered(r, n)
  {
    var o := t.outbox;
    assert r.outbox[n..] == o[n..] + [rep];
    forall i, j | 0 <= i < j < |r.outbox[n..]|
      ensures r.outbox[n..][i].inReplyTo < r.outbox[n..][j].inReplyTo
    {
      if j == |o| - n {
        assert r.outbox[n..][i] == o[n + i];
      } else {
        assert r.outbox[n..][i] == o[n..][i] && r.outbox[n..][j] == o[n..][j];
      }
    }
    forall i | n <= i < |r.outbox|
      ensures r.outbox[i].inReplyTo <= rep.inReplyTo
    {
      if i < |o| {
        assert r.outbox[i] == o[i];
      }
    }
  }

  /** Under the endpoint's promise a cycle never moves the cursor back and keeps the replies in rising order. */
  lemma PollKeepsOrder(t: Trace, p: Poll, n: nat)
    requires Ordered(t, n) && SinceCursor(t.cursor, p)
    ensures Ordered(AfterPoll(t, p), n)
    ensures NotBehind(AfterPoll(t, p).cursor, t.cursor)
  {
    var r := AfterPoll(t, p);
    if p.mentions.Got? && p.mentions.value != [] && p.store.Got? {
      var ms := p.mentions.value;
      BatchKeepsOrder(t, p.store.value, ms, n);
      var b := AfterBatch(t, p.store.value, ms).trace;
      assert r.outbox == b.outbox && r.cursor == b.cursor;
      SameOrder(b, r, n);
      if b.cursor != t.cursor {
        var i :| 0 <= i < |ms| && b.cursor == Some(ms[i].id);
        assert Beyond(t.cursor, ms[i].id);
      }
    } else {
      assert r.outbox == t.outbox && r.cursor == t.cursor;
      SameOrder(t, r, n);
    }
  }

  /** `Ordered` looks only at the cursor and the replies. */
  lemma SameOrder(t: Trace, r: Trace, n: nat)
    requires Ordered(t, n) && r.outbox == t.outbox && r.cursor == t.cursor
    ensures Ordered(r, n)
  {
  }

  /** Over a run whose fetches keep the endpoint's promise, the replies answer rising ids and the cursor never moves back. */
  lemma {:induction false} RunKeepsOrder(t: Trace, polls: seq<Poll>, n: nat)
    requires Ordered(t, n) && Honest(t, polls)
    ensures Ordered(AfterPolls(t, polls), n)
    ensures NotBehind(AfterPolls(t, polls).cursor, t.cursor)
    decreases |polls|
  {
    if polls != [] {
      var init := polls[..|polls| - 1];
      RunKeepsOrder(t, init, n);
      PollKeepsOrder(AfterPolls(t, init), polls[|polls| - 1], n);
    }
  }

  /** A started worker never replies twice to the same mention as long as the endpoint keeps its promise. */
  lemma NoDoubleReplies(t: Trace, polls: seq<Poll>)
    requires t.cursor.None? && Honest(t, polls)
    ensures |t.outbox| <= |AfterPolls(t, polls).outbox|
    ensures DistinctTargets(AfterPolls(t, polls).outbox[|t.outbox|..])
  {
    RunKeepsOrder(t, polls, |t.outbox|);
  }

  /**
   * The worker thread's state: the shared `auto_reply_running` flag, the activity log file's
   * lines and the tweets posted on the platform.
   */
  class Worker {
    var running: bool
    var log: seq<Event>
    var outbox: seq<Reply>

    constructor ()
      ensures !running && log == [] && outbox == []
    {
      running, log, outbox := false, [], [];
    }

    /**
     * `auto_reply_worker` over a finite run of cycles. Without the Elevated plan it logs once and
     * returns, touching nothing else; otherwise it starts with no cursor and runs every cycle.
     */
    method Work(level: AccessLevel, polls: seq<Poll>) returns (cursor: Option<int>)
      modifies this
      ensures level != Elevated ==> running == old(running) && log == old(log) + [Disabled] && outbox == old(outbox) && cursor == None
      ensures level == Elevated ==> running && Trace(cursor, log, outbox) == AfterPolls(Trace(None, old(log) + [Started], old(outbox)), polls)
    {
      if level != Elevated {
        log := log + [Disabled];
        return None;
      }
      cursor := None;
      running := true;
      log := log + [Started];
      ghost var start := Trace(None, log, outbox);
      var i := 0;
      while i < |polls|
        invariant 0 <= i <= |polls|
        invariant running
        invariant Trace(cursor, log, outbox) == AfterPolls(start, polls[..i])
      {
        assert polls[..i + 1][..i] == polls[..i];
        cursor := RunCycle(cursor, polls[i]);
        i := i + 1;
      }
      assert polls[..i] == polls;
    }

    /** One pass of the `while auto_reply_running` loop body: fetch, walk the batch in reverse, move the cursor. */
    method RunCycle(cursor: Option<int>, p: Poll) returns (next: Option<int>)
      modifies this`log, this`outbox
      ensures Trace(next, log, outbox) == AfterPoll(Trace(cursor, old(log), old(outbox)), p)
    {
      next := cursor;
      ghost var t0 := Trace(cursor, log, outbox);
      match p.mentions {
        case Raised(e) =>
          log := log + [Failed(e)];
        case Got(ms) =>
          if ms != [] {
            match p.store {
              case Raised(e) =>
                log := log + [Failed(e)];
              case Got(rules) =>
                var i := |ms|;
                while i > 0
                  invariant 0 <= i <= |ms|
                  invariant AfterBatch(t0, rules, ms[i..]) == Going(Trace(next, log, outbox))
                {
                  var m := ms[i - 1];
                  assert ms[i - 1..][1..] == ms[i..];
                  match m.author {
                    case Raised(e) =>
                      StoppedStaysStopped(t0, rules, ms, i - 1);
                      log := log + [Failed(e)];
                      return;
                    case Got(handle) =>
                      var user := Lower(handle);
                      if user in rules {
                        var text := ReplyText(user, rules[user]);
                        if m.post.Threw? {
                          StoppedStaysStopped(t0, rules, ms, i - 1);
                          log := log + [Failed(m.post.error)];
                          return;
                        }
                        outbox := outbox + [Reply(m.id, user, text)];
                        log := log + [Replied(user, text)];
                      }
                      next := Some(m.id);
                  }
                  i := i - 1;
                }
                assert ms[0..] == ms;
            }
          }
      }
    }
  }
}
