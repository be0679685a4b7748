/**
 * The replied-set bot of cus_rep2.py (`run_bot`), which cus_rep1.py repeats with English log text.
 *
 * Each cycle fetches the latest mentions, reloads the rules file and walks the mentions in
 * list order. A mention whose id is in `replied_ids` is skipped; one whose lower-cased author
 * has a rule gets a reply, then a log line, a reply time and its id in `replied_ids`. Any
 * exception ends the cycle with one error line in the activity log.
 */
module ReplySet {
  import opened Seqs
  import opened Text
  import opened Platform
  import opened Store

  /** A mention as `api.mentions_timeline` delivers it, with what posting a reply to it would do. */
  datatype Mention = Mention(id: int, screenName: string, post: Call)

  /** What one cycle's calls do, and the clock reading used for its log lines and reply times. */
  datatype Poll = Poll(mentions: Fetch<seq<Mention>>, store: Fetch<Rules>, now: int)

  /** An entry of the in-memory `activity_log`, stamped with its time. */
  datatype Event = Replied(at: int, user: string) | Failed(at: int, detail: string) | Tweeted(at: int)

  /** `replied_ids`, `activity_log`, `reply_times`, and the replies posted on the platform. */
  datatype BotState = BotState(repliedIds: set<int>, log: seq<Event>, replyTimes: map<string, int>, outbox: seq<Reply>)

  /** Part way through a batch: still going, or stopped by an exception carrying its message. */
  datatype Step = Going(state: BotState) | Stopped(state: BotState, error: string)

  /**
   * One pass of the `for mention in mentions` body: a seen id changes nothing; the pass raises
   * exactly when the mention trips, and then changes nothing; otherwise the id is recorded
   * exactly when the author has a rule.
   */
  function AfterMention(s: BotState, rules: Rules, m: Mention, now: int): (r: Step)
    ensures m.id in s.repliedIds ==> r == Going(s)
    ensures r.Stopped? <==> Trips(s.repliedIds, rules, m)
    ensures r.Stopped? ==> r.state == s
    ensures r.Going? ==> (m.id in r.state.repliedIds <==> m.id in s.repliedIds || Lower(m.screenName) in rules)
  {
    if m.id in s.repliedIds then Going(s)
    else
      var user := Lower(m.screenName);
      if user !in rules then Going(s)
      else
        match m.post
        case Threw(e) => Stopped(s, e)
        case Done =>
          Going(BotState(s.repliedIds + {m.id}, s.log + [Replied(now, user)], s.replyTimes[user := now],
                         s.outbox + [Reply(m.id, user, ReplyText(user, rules[user]))]))
  }

  /** The inner loop over the mentions, in list order. */
  function AfterBatch(s: BotState, rules: Rules, ms: seq<Mention>, now: int): Step
    decreases |ms|
  {
    if ms == [] then Going(s)
    else
      match AfterBatch(s, rules, ms[..|ms| - 1], now)
      case Going(s') => AfterMention(s', rules, ms[|ms| - 1], now)
      case Stopped(s', e) => Stopped(s', e)
  }

  /** One cycle of the `while True` loop. */
  function AfterPoll(s: BotState, p: Poll): BotState {
    match p.mentions
    case Raised(e) => s.(log := s.log + [Failed(p.now, e)])
    case Got(ms) =>
      match p.store
      case Raised(e) => s.(log := s.log + [Failed(p.now, e)])
      case Got(rules) =>
        match AfterBatch(s, rules, ms, p.now)
        case Going(s') => s'
        case Stopped(s', e) => s'.(log := s'.log + [Failed(p.now, e)])
  }

  /** A finite run of cycles. */
  function AfterPolls(s: BotState, polls: seq<Poll>): BotState
    decreases |polls|
  {
    if polls == [] then s else AfterPoll(AfterPolls(s, polls[..|polls| - 1]), polls[|polls| - 1])
  }

  // ---------------------------------------------------------------------------
  // What a cycle records

  /** `rep` is the reply mention `m` earns: its author has a rule, the post returned, and the text is "@user rule". */
  predicate Earned(rules: Rules, m: Mention, rep: Reply) {
    var user := Lower(m.screenName);
    && user in rules
    && m.post.Done?
    && rep == Reply(m.id, user, ReplyText(user, rules[user]))
  }

  /** The replies posted since position `n` answer distinct tweets, and `replied_ids` holds exactly those tweets. */
  predicate Recorded(s: BotState, n: nat) {
    && n <= |s.outbox|
    && s.repliedIds == Targets(s.outbox[n..])
    && DistinctTargets(s.outbox[n..])
  }

  /** The success lines logged for replies `rs` at time `now`. */
  function SuccessLines(rs: seq<Reply>, now: int): seq<Event>
    decreases |rs|
  {
    if rs == [] then [] else SuccessLines(rs[..|rs| - 1], now) + [Replied(now, rs[|rs| - 1].user)]
  }

  /**
   * `r` came from `s` by posting replies only: the earlier replies are kept, the new ones answer
   * distinct tweets none of which was in `replied_ids`, and the set grew by exactly those tweets.
   */
  predicate Extends(s: BotState, r: BotState) {
    && |s.outbox| <= |r.outbox| && r.outbox[..|s.outbox|] == s.outbox
    && r.repliedIds == s.repliedIds + Targets(r.outbox[|s.outbox|..])
    && (forall j :: |s.outbox| <= j < |r.outbox| ==> r.outbox[j].inReplyTo !in s.repliedIds)
    && DistinctTargets(r.outbox[|s.outbox|..])
  }

  /** One more mention keeps `Extends`. */
  lemma MentionExtends(s: BotState, q: BotState, rules: Rules, m: Mention, now: int)
    requires Extends(s, q)
    ensures Extends(s, AfterMention(q, rules, m, now).state)
  {
    var user := Lower(m.screenName);
    if m.id !in q.repliedIds && user in rules && m.post.Done? {
      ReplyExtends(s, q, AfterMention(q, rules, m, now).state, Reply(m.id, user, ReplyText(user, rules[user])));
    }
  }

  /** Posting one reply to a tweet not yet in `replied_ids`, and recording that tweet, keeps `Extends`. */
  lemma ReplyExtends(s: BotState, q: BotState, r: BotState, rep: Reply)
    requires Extends(s, q) && rep.inReplyTo !in q.repliedIds
    requires r.outbox == q.outbox + [rep] && r.repliedIds == q.repliedIds + {rep.inReplyTo}
    ensures Extends(s, r)
  {
    var n := |s.outbox|;
    var d := q.outbox[n..];
    Appended(q.outbox, rep, n);
    TargetsOfAppend(d, rep);
    UnionStep(q.repliedIds, s.repliedIds, Targets(d), Targets(d + [rep]), rep.inReplyTo);
    DistinctOfAppend(d, rep);
    FreshAfterAppend(s.repliedIds, q.outbox, rep, n);
  }

  /** Adding `x` to a union adds it to the second part. */
  lemma UnionStep(q: set<int>, a: set<int>, b: set<int>, b': set<int>, x: int)
    requires q == a + b && b' == b + {x}
    ensures q + {x} == a + b'
  {
  }

  /** Appending to a sequence keeps its first `n` items and puts the new one after the rest. */
  lemma Appended(rs: seq<Reply>, rep: Reply, n: nat)
    requires n <= |rs|
    ensures (rs + [rep])[..n] == rs[..n]
    ensures (rs + [rep])[n..] == rs[n..] + [rep]
  {
  }

  /** Replies past position `n` that answer no tweet of `ids` still do so after one more such reply. */
  lemma FreshAfterAppend(ids: set<int>, rs: seq<Reply>, rep: Reply, n: nat)
    requires forall j :: n <= j < |rs| ==> rs[j].inReplyTo !in ids
    requires rep.inReplyTo !in ids
    ensures forall j :: n <= j < |rs + [rep]| ==> (rs + [rep])[j].inReplyTo !in ids
  {
  }

  /** What a batch does to the set and the replies. */
  lemma {:induction false} BatchGrowth(s: BotState, rules: Rules, ms: seq<Mention>, now: int)
    ensures Extends(s, AfterBatch(s, rules, ms, now).state)
    decreases |ms|
  {
    if ms == [] {
      assert s.outbox[|s.outbox|..] == [];
    } else {
      var init := ms[..|ms| - 1];
      BatchGrowth(s, rules, init, now);
      var b := AfterBatch(s, rules, init, now);
      if b.Going? {
        MentionExtends(s, b.state, rules, ms[|ms| - 1], now);
      }
    }
  }

  /** Every reply a batch posts was earned by one of the fetched mentions. */
  lemma {:induction false} BatchProvenance(s: BotState, rules: Rules, ms: seq<Mention>, now: int)
    ensures var r := AfterBatch(s, rules, ms, now).state;
            && |s.outbox| <= |r.outbox|
            && forall j :: |s.outbox| <= j < |r.outbox| ==> exists i :: 0 <= i < |ms| && Earned(rules, ms[i], r.outbox[j])
    decreases |ms|
  {
    if ms != [] {
      var init := ms[..|ms| - 1];
      var m := ms[|ms| - 1];
      BatchProvenance(s, rules, init, now);
      var b := AfterBatch(s, rules, init, now);
      var q := b.state;
      var r := AfterBatch(s, rules, ms, now).state;
      forall j | |s.outbox| <= j < |r.outbox|
        ensures exists i :: 0 <= i < |ms| && Earned(rules, ms[i], r.outbox[j])
      {
        if j < |q.outbox| {
          assert r.outbox[j] == q.outbox[j];
          var i :| 0 <= i < |init| && Earned(rules, init[i], q.outbox[j]);
          assert ms[i] == init[i];
        } else {
          assert Earned(rules, ms[|ms| - 1], r.outbox[j]);
        }
      }
    }
  }

  /**
   * `r` came from `s` by logging one success line per new reply, in the same order, and stamping
   * exactly the replied users with `now`; no other user gains or changes a reply time.
   */
  predicate LoggedSince(s: BotState, r: BotState, now: int) {
    && |s.outbox| <= |r.outbox|
    && r.log == s.log + SuccessLines(r.outbox[|s.outbox|..], now)
    && r.replyTimes.Keys == s.replyTimes.Keys + Addressed(r.outbox[|s.outbox|..])
    && (forall u :: u in Addressed(r.outbox[|s.outbox|..]) ==> r.replyTimes[u] == now)
    && (forall u :: u in s.replyTimes && u !in Addressed(r.outbox[|s.outbox|..]) ==> r.replyTimes[u] == s.replyTimes[u])
  }

  /** One more mention keeps `LoggedSince`. */
  lemma MentionLogs(s: BotState, q: BotState, rules: Rules, m: Mention, now: int)
    requires LoggedSince(s, q, now)
    ensures LoggedSince(s, AfterMention(q, rules, m, now).state, now)
  {
    var user := Lower(m.screenName);
    if m.id !in q.repliedIds && user in rules && m.post.Done? {
      ReplyLogs(s, q, AfterMention(q, rules, m, now).state, Reply(m.id, user, ReplyText(user, rules[user])), now);
    }
  }

  /** Posting one reply, with its log line and reply time, keeps `LoggedSince`. */
  lemma ReplyLogs(s: BotState, q: BotState, r: BotState, rep: Reply, now: int)
    requires LoggedSince(s, q, now)
    requires r.outbox == q.outbox + [rep] && r.log == q.log + [Replied(now, rep.user)]
    requires r.replyTimes == q.replyTimes[rep.user := now]
    ensures LoggedSince(s, r, now)
  {
    var n := |s.outbox|;
    var d := q.outbox[n..];
    assert r.outbox[n..] == d + [rep];
    assert r.log == s.log + SuccessLines(d + [rep], now) by {
      assert (d + [rep])[..|d|] == d;
    }
    assert Addressed(d + [rep]) == Addressed(d) + {rep.user} by {
      AddressedOfAppend(d, rep);
    }
    TimesAfterReply(s.replyTimes, q.replyTimes, Addressed(d), rep.user, now);
  }

  /** Stamping one more user with `now` extends the stamped set by that user. */
  lemma TimesAfterReply(old_: map<string, int>, times: map<string, int>, a: set<string>, user: string, now: int)
    requires times.Keys == old_.Keys + a
    requires forall u :: u in a ==> times[u] == now
    requires forall u :: u in old_ && u !in a ==> times[u] == old_[u]
    ensures times[user := now].Keys == old_.Keys + (a + {user})
    ensures forall u :: u in a + {user} ==> times[user := now][u] == now
    ensures forall u :: u in old_ && u !in a + {user} ==> times[user := now][u] == old_[u]
  {
  }

  /** A batch logs one success line per reply, in the same order, and stamps each replied user with `now`. */
  lemma {:induction false} BatchLog(s: BotState, rules: Rules, ms: seq<Mention>, now: int)
    ensures LoggedSince(s, AfterBatch(s, rules, ms, now).state, now)
    decreases |ms|
  {
    if ms == [] {
      assert s.outbox[|s.outbox|..] == [];
    } else {
      var init := ms[..|ms| - 1];
      BatchLog(s, rules, init, now);
      var b := AfterBatch(s, rules, init, now);
      if b.Going? {
        MentionLogs(s, b.state, rules, ms[|ms| - 1], now);
      }
    }
  }

  /** A cycle keeps `Recorded`: `replied_ids` stays the set of tweets answered this run, each answered once. */
  lemma PollKeepsRecord(s: BotState, p: Poll, n: nat)
    requires Recorded(s, n)
    ensures Recorded(AfterPoll(s, p), n)
  {
    var r := AfterPoll(s, p);
    if p.mentions.Got? && p.store.Got? {
      BatchGrowth(s, p.store.value, p.mentions.value, p.now);
      var q := AfterBatch(s, p.store.value, p.mentions.value, p.now).state;
      ExtendsRecorded(s, q, n);
      SameRecord(q, r, n);
    } else {
      SameRecord(s, r, n);
    }
  }

  /** Replies posted after a `Recorded` state, as `Extends` describes them, keep it `Recorded`. */
  lemma ExtendsRecorded(s: BotState, q: BotState, n: nat)
    requires Recorded(s, n) && Extends(s, q)
    ensures Recorded(q, n)
  {
    JoinAt(s.outbox, q.outbox, n, s.repliedIds);
  }

  /**
   * Replies `q` that extend `o` past position `n`, where the replies of `o` from `n` on answer
   * distinct tweets `ids` and the new ones answer distinct tweets outside `ids`.
   */
  lemma JoinAt(o: seq<Reply>, q: seq<Reply>, n: nat, ids: set<int>)
    requires n <= |o| <= |q| && q[..|o|] == o
    requires DistinctTargets(o[n..]) && ids == Targets(o[n..])
    requires DistinctTargets(q[|o|..]) && forall j :: |o| <= j < |q| ==> q[j].inReplyTo !in ids
    ensures Targets(q[n..]) == ids + Targets(q[|o|..]) && DistinctTargets(q[n..])
  {
    var d := q[|o|..];
    assert q[n..] == o[n..] + d by {
      assert q == q[..|o|] + d;
    }
    forall j | 0 <= j < |d|
      ensures d[j].inReplyTo !in ids
    {
      assert d[j] == q[|o| + j];
    }
    JoinTargets(o[n..], d, ids);
  }

  /** Two runs of replies to distinct tweets, the second answering none of the first's, join into one. */
  lemma JoinTargets(a: seq<Reply>, d: seq<Reply>, ids: set<int>)
    requires DistinctTargets(a) && DistinctTargets(d) && ids == Targets(a)
    requires forall j :: 0 <= j < |d| ==> d[j].inReplyTo !in ids
    ensures Targets(a + d) == ids + Targets(d)
    ensures DistinctTargets(a + d)
  {
    assert Targets(a + d) == Targets(a) + Targets(d) by {
      forall x | x in a + d ensures x in a || x in d { }
    }
    forall i, j | 0 <= i < j < |a + d|
      ensures (a + d)[i].inReplyTo != (a + d)[j].inReplyTo
    {
      if i < |a| <= j {
        assert a[i] in a;
        assert (a + d)[j] == d[j - |a|];
      }
    }
  }

  /** A state with the same replies and the same `replied_ids` is `Recorded` alike. */
  lemma SameRecord(s: BotState, r: BotState, n: nat)
    requires Recorded(s, n) && r.outbox == s.outbox && r.repliedIds == s.repliedIds
    ensures Recorded(r, n)
  {
  }

  lemma {:induction false} RunKeepsRecord(s: BotState, polls: seq<Poll>, n: nat)
    requires Recorded(s, n)
    ensures Recorded(AfterPolls(s, polls), n)
    decreases |polls|
  {
    if polls != [] {
      RunKeepsRecord(s, polls[..|polls| - 1], n);
      PollKeepsRecord(AfterPolls(s, polls[..|polls| - 1]), polls[|polls| - 1], n);
    }
  }

  /**
   * At most one successful reply per mention id in one run of `run_bot`, which starts with an
   * empty `replied_ids`; and at the end `replied_ids` holds exactly the ids that were answered.
   */
  lemma RepliesOncePerRun(s: BotState, polls: seq<Poll>)
    requires s.repliedIds == {}
    ensures var r := AfterPolls(s, polls);
            |s.outbox| <= |r.outbox| && DistinctTargets(r.outbox[|s.outbox|..]) && r.repliedIds == Targets(r.outbox[|s.outbox|..])
  {
    assert s.outbox[|s.outbox|..] == [];
    RunKeepsRecord(s, polls, |s.outbox|);
  }

  /** The ids in a batch are pairwise distinct, as tweet ids are. */
  predicate DistinctIds(ms: seq<Mention>) {
    forall i, j :: 0 <= i < j < |ms| ==> ms[i].id != ms[j].id
  }

  /**
   * A mention whose author has no rule is never recorded, so a rule added later still fires on it;
   * and `replied_ids` never loses an id.
   */
  lemma UnmappedNeverRecorded(s: BotState, p: Poll, k: int)
    requires p.mentions.Got? && p.store.Got? && DistinctIds(p.mentions.value)
    requires 0 <= k < |p.mentions.value| && Lower(p.mentions.value[k].screenName) !in p.store.value
    ensures s.repliedIds <= AfterPoll(s, p).repliedIds
    ensures p.mentions.value[k].id in AfterPoll(s, p).repliedIds <==> p.mentions.value[k].id in s.repliedIds
  {
    var ms, rules := p.mentions.value, p.store.value;
    BatchGrowth(s, rules, ms, p.now);
    BatchProvenance(s, rules, ms, p.now);
    var q := AfterBatch(s, rules, ms, p.now).state;
    assert AfterPoll(s, p).repliedIds == q.repliedIds;
    var d := q.outbox[|s.outbox|..];
    forall rep | rep in d
      ensures rep.inReplyTo != ms[k].id
    {
      var j :| 0 <= j < |d| && d[j] == rep;
      assert q.outbox[|s.outbox| + j] == rep;
      var i :| 0 <= i < |ms| && Earned(rules, ms[i], rep);
      assert i != k;
    }
  }

  // ---------------------------------------------------------------------------
  // A batch with no failure, and one that fails

  /** The replies due to `ms` under `rules` for the tweets not in `seen`, in list order. */
  function Due(seen: set<int>, rules: Rules, ms: seq<Mention>): seq<Reply>
    decreases |ms|
  {
    if ms == [] then []
    else
      var m := ms[|ms| - 1];
      var user := Lower(m.screenName);
      Due(seen, rules, ms[..|ms| - 1]) + (if m.id !in seen && user in rules then [Reply(m.id, user, ReplyText(user, rules[user]))] else [])
  }

  /** Considering `m` raises: it is unseen, its author has a rule, and the post fails. */
  predicate Trips(seen: set<int>, rules: Rules, m: Mention) {
    m.id !in seen && Lower(m.screenName) in rules && m.post.Threw?
  }

  lemma {:induction false} DueTargets(seen: set<int>, rules: Rules, ms: seq<Mention>)
    ensures forall x :: x in Targets(Due(seen, rules, ms)) ==> exists i :: 0 <= i < |ms| && ms[i].id == x
    decreases |ms|
  {
    if ms != [] {
      var init := ms[..|ms| - 1];
      DueTargets(seen, rules, init);
      var d := Due(seen, rules, init);
      forall x | x in Targets(Due(seen, rules, ms))
        ensures exists i :: 0 <= i < |ms| && ms[i].id == x
      {
        var rep :| rep in Due(seen, rules, ms) && rep.inReplyTo == x;
        if rep in d {
          assert x in Targets(d);
          var i :| 0 <= i < |init| && init[i].id == x;
          assert ms[i] == init[i];
        } else {
          assert ms[|ms| - 1].id == x;
        }
      }
    }
  }

  /**
   * A batch with distinct ids in which no post fails: exactly one reply per unseen mention whose
   * author has a rule, in list order, none for the others, and each answered id is recorded.
   */
  lemma {:induction false} CleanBatch(s: BotState, rules: Rules, ms: seq<Mention>, now: int)
    requires DistinctIds(ms)
    requires forall i :: 0 <= i < |ms| ==> !Trips(s.repliedIds, rules, ms[i])
    ensures AfterBatch(s, rules, ms, now).Going?
    ensures AfterBatch(s, rules, ms, now).state.outbox == s.outbox + Due(s.repliedIds, rules, ms)
    ensures AfterBatch(s, rules, ms, now).state.repliedIds == s.repliedIds + Targets(Due(s.repliedIds, rules, ms))
    decreases |ms|
  {
    if ms != [] {
      var init := ms[..|ms| - 1];
      var m := ms[|ms| - 1];
      CleanBatch(s, rules, init, now);
      DueTargets(s.repliedIds, rules, init);
      var d := Due(s.repliedIds, rules, init);
      var q := AfterBatch(s, rules, init, now).state;
      assert m.id !in Targets(d) by {
        forall i | 0 <= i < |init|
          ensures init[i].id != m.id
        {
          assert init[i] == ms[i];
        }
      }
      var user := Lower(m.screenName);
      if m.id !in s.repliedIds && user in rules {
        var rep := Reply(m.id, user, ReplyText(user, rules[user]));
        TargetsOfAppend(d, rep);
        assert q.outbox + [rep] == s.outbox + (d + [rep]);
      } else {
        assert d + [] == d;
      }
    }
  }

  /** Once a batch has stopped, the mentions after the failing one are never looked at. */
  lemma {:induction false} StoppedStaysStopped(s: BotState, rules: Rules, ms: seq<Mention>, j: int, now: int)
    requires 0 <= j <= |ms| && AfterBatch(s, rules, ms[..j], now).Stopped?
    ensures AfterBatch(s, rules, ms, now) == AfterBatch(s, rules, ms[..j], now)
    decreases |ms| - j
  {
    if j < |ms| {
      var init := ms[..|ms| - 1];
      assert init[..j] == ms[..j];
      StoppedStaysStopped(s, rules, init, j, now);
      assert AfterBatch(s, rules, init, now).Stopped?;
    } else {
      assert ms[..j] == ms;
    }
  }

  /**
   * When the post for mention `k` raises, the cycle ends there with exactly one error line; the
   * id of `k` is not recorded and the mentions after it are abandoned.
   */
  lemma FailedPoll(s: BotState, ms: seq<Mention>, rules: Rules, now: int, k: int)
    requires 0 <= k < |ms| && AfterBatch(s, rules, ms[..k], now).Going?
    requires Trips(AfterBatch(s, rules, ms[..k], now).state.repliedIds, rules, ms[k])
    ensures var q := AfterBatch(s, rules, ms[..k], now).state;
            AfterPoll(s, Poll(Got(ms), Got(rules), now)) == q.(log := q.log + [Failed(now, ms[k].post.error)])
    ensures ms[k].id !in AfterPoll(s, Poll(Got(ms), Got(rules), now)).repliedIds
  {
    assert ms[..k + 1][..k] == ms[..k];
    StoppedStaysStopped(s, rules, ms, k + 1, now);
  }

  // ---------------------------------------------------------------------------
  // Rule edits and the engine

  /**
   * A rule saved from the dashboard for a handle, typed in any case and with any surrounding
   * blanks, fires on that handle's next unseen mention with the saved text.
   */
  lemma EditTakesEffect(s: BotState, rules: Rules, username: string, reply: string, m: Mention, now: int)
    requires Lower(Strip(username)) == Lower(m.screenName) && Strip(username) != "" && reply != ""
    requires m.id !in s.repliedIds && m.post.Done?
    ensures var user := Lower(m.screenName);
            AfterMention(s, Put(rules, NormalizedRule(username, reply)), m, now).state.outbox
              == s.outbox + [Reply(m.id, user, ReplyText(user, reply))]
  {
    NormalizedKeyMatchesHandle(username, Strip(username));
  }

  /** After the dashboard deletes a handle's rule, typed in any case, that handle's next mention gets no reply and is not recorded. */
  lemma DeleteTakesEffect(s: BotState, rules: Rules, username: string, m: Mention, now: int)
    requires Lower(Strip(username)) == Lower(m.screenName)
    ensures AfterMention(s, rules - {NormalizedKey(username)}, m, now) == Going(s)
  {
    NormalizedKeyMatchesHandle(username, Strip(username));
  }

  /** The outcome shown for the "publish tweet" button. */
  datatype TweetOutcome = Blank | Published | Rejected(error: string)

  /**
   * The module-level state of cus_rep2.py that the bot thread and the dashboard share, with
   * `run_bot`'s own `replied_ids` and the posts made on the platform.
   */
  class ReplyBot {
    var repliedIds: set<int>
    var activityLog: seq<Event>
    var replyTimes: map<string, int>
    var outbox: seq<Reply>
    var tweets: seq<string>
    var tweetsSent: int

    function Snapshot(): BotState
      reads this
    {
      BotState(repliedIds, activityLog, replyTimes, outbox)
    }

    constructor ()
      ensures Snapshot() == BotState({}, [], map[], []) && tweets == [] && tweetsSent == 0
    {
      repliedIds, activityLog, replyTimes, outbox := {}, [], map[], [];
      tweets, tweetsSent := [], 0;
    }

    /** `run_bot` over a finite run of cycles: it starts from an empty `replied_ids`. */
    method RunBot(polls: seq<Poll>)
      modifies this
      ensures Snapshot() == AfterPolls(old(Snapshot()).(repliedIds := {}), polls)
      ensures tweets == old(tweets) && tweetsSent == old(tweetsSent)
    {
      repliedIds := {};
      ghost var start := Snapshot();
      var i := 0;
      while i < |polls|
        invariant 0 <= i <= |polls|
        invariant Snapshot() == AfterPolls(start, polls[..i])
        invariant tweets == old(tweets) && tweetsSent == old(tweetsSent)
      {
        assert polls[..i + 1][..i] == polls[..i];
        RunCycle(polls[i]);
        i := i + 1;
      }
      assert polls[..i] == polls;
    }

    /** One pass of the `while True` body of `run_bot`. */
    method RunCycle(p: Poll)
      modifies this`repliedIds, this`activityLog, this`replyTimes, this`outbox
      ensures Snapshot() == AfterPoll(old(Snapshot()), p)
    {
      ghost var s0 := Snapshot();
      match p.mentions {
        case Raised(e) =>
          activityLog := activityLog + [Failed(p.now, e)];
        case Got(ms) =>
          match p.store {
            case Raised(e) =>
              activityLog := activityLog + [Failed(p.now, e)];
            case Got(rules) =>
              var i := 0;
              while i < |ms|
                invariant 0 <= i <= |ms|
                invariant AfterBatch(s0, rules, ms[..i], p.now) == Going(Snapshot())
              {
                var m := ms[i];
                assert ms[..i + 1][..i] == ms[..i];
                if m.id !in repliedIds {
                  var user := Lower(m.screenName);
                  if user in rules {
                    var text := ReplyText(user, rules[user]);
                    if m.post.Threw? {
                      StoppedStaysStopped(s0, rules, ms, i + 1, p.now);
                      activityLog := activityLog + [Failed(p.now, m.post.error)];
                      return;
                    }
                    outbox := outbox + [Reply(m.id, user, text)];
                    activityLog := activityLog + [Replied(p.now, user)];
                    replyTimes := replyTimes[user := p.now];
                    repliedIds := repliedIds + {m.id};
                  }
                }
                i := i + 1;
              }
              assert ms[..|ms|] == ms;
          }
      }
    }

    /** The "publish tweet" button: only a non-blank text is posted, stripped, and only a post that returns is counted. */
    method PostTweet(text: string, call: Call, now: int) returns (outcome: TweetOutcome)
      modifies this`tweets, this`tweetsSent, this`activityLog
      ensures Strip(text) == "" ==> outcome == Blank && tweets == old(tweets) && tweetsSent == old(tweetsSent) && activityLog == old(activityLog)
      ensures Strip(text) != "" && call.Done? ==>
                && outcome == Published && tweets == old(tweets) + [Strip(text)]
                && tweetsSent == old(tweetsSent) + 1 && activityLog == old(activityLog) + [Tweeted(now)]
      ensures Strip(text) != "" && call.Threw? ==>
                outcome == Rejected(call.error) && tweets == old(tweets) && tweetsSent == old(tweetsSent) && activityLog == old(activityLog)
    {
      var body := Strip(text);
      if body == "" {
        return Blank;
      }
      match call {
        case Threw(e) =>
          outcome := Rejected(e);
        case Done =>
          tweets := tweets + [body];
          tweetsSent := tweetsSent + 1;
          activityLog := activityLog + [Tweeted(now)];
          outcome := Published;
      }
    }
  }
}
