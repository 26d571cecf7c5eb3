/**
 The scoring step of the bot: a message from a user earns the points of every
 rule tag it contains that the user has not already been credited for today,
 and the usage ledger records today's date for every tag the message contains.
 */
module Scoring {
  import opened Rules
  import opened ScoreTable

  /** A calendar day as a day number; the code only ever compares days for equality. */
  type Day = nat

  /** One user's slot in the usage ledger: the last day each tag was used. */
  type Usage = map<Tag, Day>

  /** The bot's whole state: the score table and the per-user usage ledger. */
  datatype State = State(scores: ScoreTable.Table, ledger: map<User, Usage>)

  const Initial := State(ScoreTable.Empty, map[])

  /** The reply branch the message handler takes. */
  datatype Reply =
    | Ignored                                     // empty user key: no reply at all
    | Awarded(user: User, gained: int, total: int) // "+gained points, total now total"
    | AlreadyUsed(user: User)                      // "already used these hashtags today"

  /** What handling one message produced: points awarded, reply branch, new state. */
  datatype Outcome = Outcome(points: int, reply: Reply, state: State)

  /** The user's ledger slot; a user without one has used nothing. */
  function Slot(ledger: map<User, Usage>, user: User): Usage {
    if user in ledger then ledger[user] else map[]
  }

  /** A tag may be credited unless it is recorded with today's date. */
  predicate Awardable(used: Usage, tag: Tag, today: Day) {
    tag !in used || used[tag] != today
  }

  /** The rule's tag is in the message and may be credited today. */
  predicate Eligible(rule: Rule, used: Usage, text: string, today: Day) {
    Occurs(rule.tag, text) && Awardable(used, rule.tag, today)
  }

  /** The tags of the rules that occur in the message. */
  function MatchedTags(rules: seq<Rule>, text: string): set<Tag> {
    set i | 0 <= i < |rules| && Occurs(rules[i].tag, text) :: rules[i].tag
  }

  /**
   Reference definition of the points a message earns: the sum of the points of
   the eligible rules, every rule judged against the ledger slot as it stood
   before the message.
   */
  function Earned(rules: seq<Rule>, used: Usage, text: string, today: Day): int
    decreases |rules|
  {
    if |rules| == 0 then 0
    else (if Eligible(rules[0], used, text, today) then rules[0].points else 0) + Earned(rules[1..], used, text, today)
  }

  lemma MatchedTagsCons(rules: seq<Rule>, text: string)
    requires |rules| > 0
    ensures MatchedTags(rules, text)
         == (if Occurs(rules[0].tag, text) then {rules[0].tag} else {}) + MatchedTags(rules[1..], text)
  {
    var rest := rules[1..];
    forall t | t in MatchedTags(rest, text)
      ensures t in MatchedTags(rules, text)
    {
      var k :| 0 <= k < |rest| && Occurs(rest[k].tag, text) && rest[k].tag == t;
      assert rules[k + 1] == rest[k];
    }
    forall t | t in MatchedTags(rules, text)
      ensures t in MatchedTags(rest, text) || (t == rules[0].tag && Occurs(t, text))
    {
      var k :| 0 <= k < |rules| && Occurs(rules[k].tag, text) && rules[k].tag == t;
      if k > 0 {
        assert rest[k - 1] == rules[k];
      }
    }
  }

  /**
   The scan of the rule table the handler performs: rules in table order, each
   matching tag that is not stamped with today is credited and stamped at once.
   The result is the points credited and the updated ledger slot.
   */
  function Scan(rules: seq<Rule>, used: Usage, text: string, today: Day): (r: (int, Usage))
    ensures r.1.Keys == used.Keys + MatchedTags(rules, text)
    ensures forall t :: t in MatchedTags(rules, text) ==> r.1[t] == today
    ensures forall t :: t in used && t !in MatchedTags(rules, text) ==> r.1[t] == used[t]
    decreases |rules|
  {
    if |rules| == 0 then (0, used)
    else
      MatchedTagsCons(rules, text);
      var rule := rules[0];
      if Occurs(rule.tag, text) && Awardable(used, rule.tag, today) then
        var rest := Scan(rules[1..], used[rule.tag := today], text, today);
        (rule.points + rest.0, rest.1)
      else
        Scan(rules[1..], used, text, today)
  }

  /** Stamping a tag that no rule carries does not change what the rules earn. */
  lemma {:induction false} EarnedIgnoresOtherTags(rules: seq<Rule>, used: Usage, tag: Tag, day: Day, text: string, today: Day)
    requires forall i :: 0 <= i < |rules| ==> rules[i].tag != tag
    ensures Earned(rules, used[tag := day], text, today) == Earned(rules, used, text, today)
    decreases |rules|
  {
    if |rules| > 0 {
      EarnedIgnoresOtherTags(rules[1..], used, tag, day, text, today);
    }
  }

  /**
   With distinct tags, stamping as the scan goes does not change the outcome:
   the scan credits exactly the reference sum.
   */
  lemma {:induction false} ScanEarnsReference(rules: seq<Rule>, used: Usage, text: string, today: Day)
    requires DistinctTags(rules)
    ensures Scan(rules, used, text, today).0 == Earned(rules, used, text, today)
    decreases |rules|
  {
    if |rules| > 0 {
      var rule := rules[0];
      assert DistinctTags(rules[1..]);
      if Eligible(rule, used, text, today) {
        ScanEarnsReference(rules[1..], used[rule.tag := today], text, today);
        assert forall i :: 0 <= i < |rules[1..]| ==> rules[1..][i] == rules[i + 1];
        EarnedIgnoresOtherTags(rules[1..], used, rule.tag, today, text, today);
      } else {
        ScanEarnsReference(rules[1..], used, text, today);
      }
    }
  }

  /**
   With positive rule values the points earned are never negative, and are zero
   exactly when no rule is eligible.
   */
  lemma {:induction false} EarnedZeroIff(rules: seq<Rule>, used: Usage, text: string, today: Day)
    requires PositivePoints(rules)
    ensures Earned(rules, used, text, today) >= 0
    ensures Earned(rules, used, text, today) == 0
        <==> forall i :: 0 <= i < |rules| ==> !Eligible(rules[i], used, text, today)
    decreases |rules|
  {
    if |rules| > 0 {
      EarnedZeroIff(rules[1..], used, text, today);
      assert forall i :: 1 <= i < |rules| ==> rules[i] == rules[1..][i - 1];
    }
  }

  /** Each eligible rule contributes its full value to the points earned. */
  lemma {:induction false} EarnedCoversEligible(rules: seq<Rule>, used: Usage, text: string, today: Day, i: nat)
    requires PositivePoints(rules)
    requires i < |rules| && Eligible(rules[i], used, text, today)
    ensures Earned(rules, used, text, today) >= rules[i].points
    decreases |rules|
  {
    EarnedZeroIff(rules[1..], used, text, today);
    if i > 0 {
      assert rules[1..][i - 1] == rules[i];
      EarnedCoversEligible(rules[1..], used, text, today, i - 1);
    }
  }

  /**
   The ledger half of handling a message: the user's slot (created if missing)
   is scanned, and the result is the points credited and the updated ledger.
   */
  function Visit(rules: seq<Rule>, ledger: map<User, Usage>, user: User, text: string, today: Day): (r: (int, map<User, Usage>))
    requires Rules.WellFormed(rules)
    ensures r.0 == Earned(rules, Slot(ledger, user), text, today)
    ensures r.0 >= 0
    ensures r.1.Keys == ledger.Keys + {user}
    ensures Slot(r.1, user).Keys == Slot(ledger, user).Keys + MatchedTags(rules, text)
    ensures forall t :: t in MatchedTags(rules, text) ==> Slot(r.1, user)[t] == today
    ensures forall t :: t in Slot(ledger, user) && t !in MatchedTags(rules, text)
              ==> Slot(r.1, user)[t] == Slot(ledger, user)[t]
    ensures forall u :: u != user ==> Slot(r.1, u) == Slot(ledger, u)
  {
    var used := Slot(ledger, user);
    var scan := Scan(rules, used, text, today);
    ScanEarnsReference(rules, used, text, today);
    EarnedZeroIff(rules, used, text, today);
    (scan.0, ledger[user := scan.1])
  }

  /**
   Scanning a message whose matched tags are all already stamped with today, in
   a slot the user already has, credits nothing and leaves the ledger as it was.
   */
  lemma RevisitKeepsLedger(rules: seq<Rule>, ledger: map<User, Usage>, user: User, text: string, today: Day)
    requires Rules.WellFormed(rules) && user in ledger
    requires forall t :: t in MatchedTags(rules, text) ==> t in Slot(ledger, user) && Slot(ledger, user)[t] == today
    ensures Visit(rules, ledger, user, text, today) == (0, ledger)
  {
    var slot := Slot(ledger, user);
    forall i | 0 <= i < |rules|
      ensures !Eligible(rules[i], slot, text, today)
    {
      if Occurs(rules[i].tag, text) {
        assert rules[i].tag in MatchedTags(rules, text);
      }
    }
    EarnedZeroIff(rules, slot, text, today);
    var after := Visit(rules, ledger, user, text, today).1;
    assert Slot(after, user).Keys == slot.Keys;
    assert Slot(after, user) == slot;
    assert after.Keys == ledger.Keys;
    assert forall u :: u in after ==> after[u] == Slot(after, u) == Slot(ledger, u) == ledger[u];
    assert after == ledger;
  }

  /**
   Credits the points of one message to the user's total; nothing is written
   when the message earned nothing, so a user is only added once they score.
   */
  function Credit(scores: ScoreTable.Table, user: User, points: int): (r: ScoreTable.Table)
    requires ScoreTable.WellFormed(scores) && points >= 0
    ensures ScoreTable.WellFormed(r)
    ensures Get(r, user) == Get(scores, user) + points
    ensures forall u :: u != user ==> Get(r, u) == Get(scores, u)
    ensures points == 0 ==> r == scores
    ensures points > 0 && user !in scores.totals ==> r.order == scores.order + [user]
    ensures !(points > 0 && user !in scores.totals) ==> r.order == scores.order
  {
    if points > 0 then Add(scores, user, points) else scores
  }

  /**
   Handles one text message from `user` on day `today`. An empty user key is
   ignored. Otherwise the user gets a ledger slot, the rules are scanned, and
   when the points credited are positive they are added to the user's total;
   the reply congratulates in that case and says "already used" in every other
   case, including a message that contains no tag at all.
   */
  function HandleMessage(rules: seq<Rule>, st: State, user: User, text: string, today: Day): (o: Outcome)
    requires Rules.WellFormed(rules) && ScoreTable.WellFormed(st.scores)
    // an empty user key changes nothing
    ensures user == "" ==> o == Outcome(0, Ignored, st)
    // points: the reference sum over the ledger slot as it was
    ensures user != "" ==> o.points == Earned(rules, Slot(st.ledger, user), text, today)
    ensures o.points >= 0
    // ledger: a slot for the user, every matched tag stamped today, the rest untouched
    ensures user != "" ==> o.state.ledger.Keys == st.ledger.Keys + {user}
    ensures user != "" ==> Slot(o.state.ledger, user).Keys == Slot(st.ledger, user).Keys + MatchedTags(rules, text)
    ensures user != "" ==> forall t :: t in MatchedTags(rules, text) ==> Slot(o.state.ledger, user)[t] == today
    ensures forall t :: t in Slot(st.ledger, user) && t !in MatchedTags(rules, text)
              ==> t in Slot(o.state.ledger, user) && Slot(o.state.ledger, user)[t] == Slot(st.ledger, user)[t]
    ensures forall u :: u != user ==> Slot(o.state.ledger, u) == Slot(st.ledger, u)
    // scores: exactly the points awarded go to the user, and to no one else
    ensures ScoreTable.WellFormed(o.state.scores)
    ensures Get(o.state.scores, user) == Get(st.scores, user) + o.points
    ensures forall u :: u != user ==> Get(o.state.scores, u) == Get(st.scores, u)
    ensures o.points == 0 ==> o.state.scores == st.scores
    // insertion order: a first-time scorer is placed last, everyone else keeps their place
    ensures o.points > 0 && user !in st.scores.totals ==> o.state.scores.order == st.scores.order + [user]
    ensures !(o.points > 0 && user !in st.scores.totals) ==> o.state.scores.order == st.scores.order
    // reply branch
    ensures o.reply.Awarded? <==> o.points > 0
    ensures o.reply.Awarded? ==> o.reply == Awarded(user, o.points, Get(o.state.scores, user))
    ensures o.reply.AlreadyUsed? <==> user != "" && o.points == 0
  {
    if user == "" then Outcome(0, Ignored, st)
    else
      var visit := Visit(rules, st.ledger, user, text, today);
      var scores := Credit(st.scores, user, visit.0);
      if visit.0 > 0 then Outcome(visit.0, Awarded(user, visit.0, Get(scores, user)), State(scores, visit.1))
      else Outcome(0, AlreadyUsed(user), State(scores, visit.1))
  }

  /** Clears the score table and the usage ledger together. */
  function Reset(st: State): (r: State)
    ensures ScoreTable.Valid(r.scores)
    ensures forall u :: Get(r.scores, u) == 0 && Slot(r.ledger, u) == map[]
    ensures Entries(r.scores) == []
  {
    Initial
  }
}
