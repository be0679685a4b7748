/**
 * The reply mapping (user name -> reply text) and the edit paths of the four dashboards.
 * The dashboards differ in how they clean the user name and the reply before storing them.
 */
module Store {
  import opened Text
  import opened Platform

  type Rules = map<string, string>

  /** A rule an edit form accepted: the key it is stored under and the text stored with it. */
  datatype Rule = Rule(key: string, text: string)

  /** Storing a rule: its key now maps to its text and every other key is as it was. */
  function Put(rules: Rules, rule: Option<Rule>): (r: Rules)
    ensures rule.None? ==> r == rules
    ensures rule.Some? ==> r.Keys == rules.Keys + {rule.value.key} && r[rule.value.key] == rule.value.text
    ensures rule.Some? ==> forall k :: k in rules && k != rule.value.key ==> r[k] == rules[k]
  {
    match rule
    case None => rules
    case Some(Rule(k, v)) => rules[k := v]
  }

  /** The add form of the cursor-based dashboard: the name is lower-cased but not stripped, the reply is kept as typed. */
  function LoweredRule(username: string, reply: string): (r: Option<Rule>)
    ensures r.Some? <==> username != "" && reply != ""
    ensures r.Some? ==> r.value.key == Lower(username) && r.value.text == reply
  {
    if username != "" && reply != "" then Some(Rule(Lower(username), reply)) else None
  }

  /** `username.lower().strip()`: how the replied-set dashboards clean a name before using it as a key. */
  function NormalizedKey(username: string): (k: string)
    ensures IsLower(k)
    ensures k != [] ==> !IsSpace(k[0]) && !IsSpace(k[|k| - 1])
  {
    var l := Lower(username);
    StripKeepsLower(l);
    Strip(l)
  }

  /** The add form of the replied-set dashboards: the cleaned name must be non-empty and the reply, kept as typed, too. */
  function NormalizedRule(username: string, reply: string): (r: Option<Rule>)
    ensures r.Some? <==> NormalizedKey(username) != "" && reply != ""
    ensures r.Some? ==> r.value.key == NormalizedKey(username) && r.value.text == reply
  {
    var key := NormalizedKey(username);
    if key != "" && reply != "" then Some(Rule(key, reply)) else None
  }

  /** The add form of the settings dashboard: both fields are stripped, case is kept, and neither may be blank. */
  function StrippedRule(username: string, reply: string): (r: Option<Rule>)
    ensures r.Some? <==> Strip(username) != "" && Strip(reply) != ""
    ensures r.Some? ==> r.value == Rule(Strip(username), Strip(reply))
  {
    if Strip(username) != "" && Strip(reply) != "" then Some(Rule(Strip(username), Strip(reply))) else None
  }

  /** A key cleaned once is already clean: cleaning is idempotent, so editing a stored key hits the same entry. */
  lemma NormalizedKeyIsStable(username: string)
    ensures NormalizedKey(NormalizedKey(username)) == NormalizedKey(username)
  {
    var k := NormalizedKey(username);
    LowerKeepsLower(k);
    StripIdempotent(Lower(username));
  }

  /** A name typed in any case and with any surrounding blanks lands on the key the engine looks up for that handle. */
  lemma NormalizedKeyMatchesHandle(username: string, handle: string)
    requires Strip(username) == handle
    ensures NormalizedKey(username) == Lower(handle)
  {
    StripOfLower(username);
  }

  /** Lower-casing and stripping commute, because lower-casing keeps every blank where it was. */
  lemma {:induction false} StripOfLower(s: string)
    ensures Strip(Lower(s)) == Lower(Strip(s))
    decreases |s|
  {
    if s != [] {
      var l := Lower(s);
      assert l[0] == LowerChar(s[0]) && l[|s| - 1] == LowerChar(s[|s| - 1]);
      if IsSpace(s[0]) {
        LowerSuffix(s, 1);
        StripOfLower(s[1..]);
        assert Strip(l) == Strip(l[1..]) && Strip(s) == Strip(s[1..]);
      } else if IsSpace(s[|s| - 1]) {
        LowerPrefix(s, |s| - 1);
        StripOfLower(s[..|s| - 1]);
        assert Strip(l) == Strip(l[..|s| - 1]) && Strip(s) == Strip(s[..|s| - 1]);
      } else {
        assert Strip(l) == l && Strip(s) == s;
      }
    }
  }

  /** A key with an upper-case letter, which only the settings dashboard stores, is never the lower-cased handle the engines look up. */
  lemma CaseKeptKeyNeverMatches(key: string, handle: string, i: int)
    requires 0 <= i < |key| && IsUpper(key[i])
    ensures Lower(handle) != key
  {
    if i < |handle| {
      assert Lower(handle)[i] != key[i];
    }
  }

  /**
   * The reply mapping a dashboard holds in memory (its `data` dict).
   * Each edit method is one dashboard's add, update or delete button.
   */
  class ReplyTable {
    var data: Rules

    constructor (loaded: Rules)
      ensures data == loaded
    {
      data := loaded;
    }

    /** The "add/update" form of the cursor-based dashboard. */
    method AddLowered(username: string, reply: string) returns (saved: bool)
      modifies this
      ensures saved <==> LoweredRule(username, reply).Some?
      ensures data == Put(old(data), LoweredRule(username, reply))
    {
      saved := username != "" && reply != "";
      if saved {
        data := data[Lower(username) := reply];
      }
    }

    /** The "add / update" button of the replied-set dashboards. */
    method AddNormalized(username: string, reply: string) returns (saved: bool)
      modifies this
      ensures saved <==> NormalizedRule(username, reply).Some?
      ensures data == Put(old(data), NormalizedRule(username, reply))
    {
      var key := NormalizedKey(username);
      saved := key != "" && reply != "";
      if saved {
        data := data[key := reply];
      }
    }

    /** The "delete user" button of the replied-set dashboards: removes the cleaned key if it is there, else only warns. */
    method Delete(username: string) returns (found: bool)
      modifies this
      ensures found <==> NormalizedKey(username) in old(data)
      ensures data.Keys == old(data).Keys - {NormalizedKey(username)}
      ensures forall k :: k in data ==> data[k] == old(data)[k]
    {
      var key := NormalizedKey(username);
      found := key in data;
      if found {
        data := data - {key};
      }
    }

    /** The "add / edit" button of the settings dashboard. */
    method AddStripped(username: string, reply: string) returns (saved: bool)
      modifies this
      ensures saved <==> StrippedRule(username, reply).Some?
      ensures data == Put(old(data), StrippedRule(username, reply))
    {
      var key := Strip(username);
      var text := Strip(reply);
      saved := key != "" && text != "";
      if saved {
        data := data[key := text];
      }
    }
  }
}
