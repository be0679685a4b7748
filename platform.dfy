/** What the reply engines see of the Twitter API: calls that return or raise, and the replies they post. */
module Platform {

  datatype Option<+T> = None | Some(value: T)

  /** A call made for its result (fetching mentions, resolving a user, loading the rules file): it returns a value or raises. */
  datatype Fetch<+T> = Got(value: T) | Raised(error: string)

  /** A call made for its effect (posting a tweet): it returns or raises. */
  datatype Call = Done | Threw(error: string)

  /** A reply the bot posted: in reply to tweet `inReplyTo`, addressed to `user`, with body `text`. */
  datatype Reply = Reply(inReplyTo: int, user: string, text: string)

  /** The body of an automatic reply: the handle with an "@", a space, then the rule's text. */
  function ReplyText(user: string, rule: string): string {
    "@" + user + " " + rule
  }

  /** The tweet ids the replies answer. */
  function Targets(rs: seq<Reply>): set<int> {
    set r | r in rs :: r.inReplyTo
  }

  /** The users the replies are addressed to. */
  function Addressed(rs: seq<Reply>): set<string> {
    set r | r in rs :: r.user
  }

  lemma AddressedOfAppend(rs: seq<Reply>, r: Reply)
    ensures Addressed(rs + [r]) == Addressed(rs) + {r.user}
  {
    assert forall x :: x in rs + [r] <==> x in rs || x == r;
  }

  /** No tweet is answered twice. */
  predicate DistinctTargets(rs: seq<Reply>) {
    forall i, j :: 0 <= i < j < |rs| ==> rs[i].inReplyTo != rs[j].inReplyTo
  }

  /** The answered tweet ids rise strictly along the sequence. */
  predicate RisingTargets(rs: seq<Reply>) {
    forall i, j :: 0 <= i < j < |rs| ==> rs[i].inReplyTo < rs[j].inReplyTo
  }

  /** A reply to a tweet not answered yet keeps the targets distinct. */
  lemma DistinctOfAppend(rs: seq<Reply>, r: Reply)
    requires DistinctTargets(rs) && r.inReplyTo !in Targets(rs)
    ensures DistinctTargets(rs + [r])
  {
    forall i | 0 <= i < |rs|
      ensures rs[i].inReplyTo != r.inReplyTo
    {
      assert rs[i] in rs;
    }
  }

  lemma TargetsOfAppend(rs: seq<Reply>, r: Reply)
    ensures Targets(rs + [r]) == Targets(rs) + {r.inReplyTo}
  {
    assert forall x :: x in rs + [r] <==> x in rs || x == r;
  }
}
