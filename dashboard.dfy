/**
 * The read-only views of the replied-set dashboards (cus_rep1.py, cus_rep2.py) and the log view
 * of the cursor-based one (cus_rep3.py): each user's reply status at a 24-hour boundary, the
 * status filter, the colour of a status, the last-20 log views and the counters.
 */
module Dashboard {
  import opened Seqs
  import opened Platform
  import opened Store
  import ReplySet

  /** `timedelta(hours=24)` in the microseconds the model measures time in. */
  const Day: int := 24 * 60 * 60 * 1000000

  /** What `get_user_status` reports for a user with a rule. */
  datatype Status = Replied | NoReply | New

  /** `get_user_status`: replied within the last 24 hours, replied longer ago, or never replied to. */
  function StatusOf(times: map<string, int>, user: string, now: int): (st: Status)
    ensures st == New <==> user !in times
    ensures st == Replied <==> user in times && now - times[user] < Day
    ensures st == NoReply <==> user in times && now - times[user] >= Day
  {
    if user in times then
      if now - times[user] < Day then Replied else NoReply
    else New
  }

  /** The text shown for a status, which is also the option the status filter offers for it. */
  function Label(st: Status): string {
    match st
    case Replied => "تم الرد 🟢"
    case NoReply => "بدون رد 🟡"
    case New => "جديد 🔵"
  }

  /** The filter option that keeps every user. */
  const All: string := "الكل"

  /** Distinct statuses have distinct labels, and none of them is the "all" option. */
  lemma LabelsDistinct(a: Status, b: Status)
    ensures Label(a) == Label(b) <==> a == b
    ensures Label(a) != All
  {
  }

  /** The condition of the filter loop: the option is "all", or it names the user's status. */
  predicate Shows(filter: string, st: Status) {
    filter == All || filter == Label(st)
  }

  /** The `filtered_users` dictionary the filter loop builds. */
  function Filtered(data: Rules, times: map<string, int>, filter: string, now: int): map<string, (string, Status)> {
    map u | u in data && Shows(filter, StatusOf(times, u, now)) :: (data[u], StatusOf(times, u, now))
  }

  /** The "all" option keeps every rule, each with its reply text. */
  lemma AllKeepsEverything(data: Rules, times: map<string, int>, now: int)
    ensures Filtered(data, times, All, now).Keys == data.Keys
    ensures forall u :: u in data ==> Filtered(data, times, All, now)[u].0 == data[u]
  {
  }

  /** A status option keeps exactly the users with that status, so the three options split the rules between them. */
  lemma FilterByStatus(data: Rules, times: map<string, int>, now: int, st: Status, u: string)
    ensures u in Filtered(data, times, Label(st), now) <==> u in data && StatusOf(times, u, now) == st
  {
    LabelsDistinct(StatusOf(times, u, now), st);
  }

  /**
   * The loop over `data.items()` that fills `filtered_users`: a user is kept when the filter is
   * "all" or equals the user's status, and is kept with its reply text and that status.
   */
  method FilterUsers(data: Rules, times: map<string, int>, filter: string, now: int) returns (shown: map<string, (string, Status)>)
    ensures shown == Filtered(data, times, filter, now)
  {
    shown := map[];
    var rest := data.Keys;
    while rest != {}
      invariant rest <= data.Keys
      invariant forall u :: u in shown <==> u in data && u !in rest && Shows(filter, StatusOf(times, u, now))
      invariant forall u :: u in shown ==> shown[u] == (data[u], StatusOf(times, u, now))
      decreases rest
    {
      var u :| u in rest;
      var st := StatusOf(times, u, now);
      if filter == All || filter == Label(st) {
        shown := shown[u := (data[u], st)];
      }
      rest := rest - {u};
    }
  }

  /** The colour a listed user is drawn in, chosen by comparing the status text. */
  function Colour(status: string): string {
    if status == Label(Replied) then "green" else if status == Label(NoReply) then "orange" else "blue"
  }

  /** Each status gets its own colour: green for replied, orange for no reply, blue for new. */
  lemma ColourOfStatus(st: Status)
    ensures Colour(Label(st)) == match st case Replied => "green" case NoReply => "orange" case New => "blue"
  {
    LabelsDistinct(st, Replied);
    LabelsDistinct(st, NoReply);
  }

  /** The activity-log tab: `reversed(activity_log[-20:])`, the newest entry first. */
  function RecentFirst<T>(log: seq<T>): (r: seq<T>)
    ensures |r| == Min(20, |log|)
    ensures r == [] <==> log == []
    ensures forall i :: 0 <= i < |r| ==> r[i] == log[|log| - 1 - i]
  {
    Reversed(Tail(log, 20))
  }

  /**
   * `sum(1 for _ in data)`: counting the rules one by one, which the statistics tab shows as the
   * number of registered replies next to `len(data)`; the two always agree.
   */
  function CountEntries(keys: set<string>): (n: nat)
    ensures n == |keys|
    decreases keys
  {
    if keys == {} then 0
    else
      var k :| k in keys;
      1 + CountEntries(keys - {k})
  }

  /** Right after a cycle, every user it replied to shows as replied. */
  lemma {:induction false} FreshReplyShowsReplied(s: ReplySet.BotState, rules: Rules, ms: seq<ReplySet.Mention>, now: int, j: int)
    requires var r := ReplySet.AfterBatch(s, rules, ms, now).state; |s.outbox| <= j < |r.outbox|
    ensures var r := ReplySet.AfterBatch(s, rules, ms, now).state; StatusOf(r.replyTimes, r.outbox[j].user, now) == Replied
  {
    ReplySet.BatchLog(s, rules, ms, now);
    var r := ReplySet.AfterBatch(s, rules, ms, now).state;
    assert r.outbox[j] in r.outbox[|s.outbox|..];
  }
}
