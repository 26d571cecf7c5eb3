/**
 Consequences of the scoring step over several messages: the once-per-day rule
 for each (user, tag), the reply branch taken when nothing is credited, the
 growth of the totals, and what a reset re-enables.
 */
module DailyRule {
  import opened Rules
  import opened ScoreTable
  import opened Scoring

  /** Handling a message twice on the same day credits nothing the second time and changes nothing. */
  lemma RepeatSameDayEarnsNothing(rules: seq<Rule>, st: State, user: User, text: string, today: Day)
    requires Rules.WellFormed(rules) && ScoreTable.WellFormed(st.scores)
    requires user != ""
    ensures var first := HandleMessage(rules, st, user, text, today);
            var second := HandleMessage(rules, first.state, user, text, today);
            && second.points == 0
            && second.reply == AlreadyUsed(user)
            && second.state == first.state
  {
    var first := HandleMessage(rules, st, user, text, today);
    RevisitKeepsLedger(rules, first.state.ledger, user, text, today);
  }

  /**
   A message with no rule tag credits nothing, yet still takes the "already used"
   branch; the only change is an (empty) ledger slot for a new user.
   */
  lemma NoTagRepliesAlreadyUsed(rules: seq<Rule>, st: State, user: User, text: string, today: Day)
    requires Rules.WellFormed(rules) && ScoreTable.WellFormed(st.scores)
    requires user != ""
    requires forall i :: 0 <= i < |rules| ==> !Occurs(rules[i].tag, text)
    ensures var o := HandleMessage(rules, st, user, text, today);
            && o.points == 0
            && o.reply == AlreadyUsed(user)
            && o.state == State(st.scores, st.ledger[user := Slot(st.ledger, user)])
  {
    var slot := Slot(st.ledger, user);
    EarnedZeroIff(rules, slot, text, today);
    assert MatchedTags(rules, text) == {};
    var o := HandleMessage(rules, st, user, text, today);
    assert Slot(o.state.ledger, user) == slot;
    assert o.state.ledger == st.ledger[user := slot];
  }

  /** A matching tag last used on another day is credited, and the reply congratulates. */
  lemma StaleTagAwarded(rules: seq<Rule>, st: State, user: User, text: string, today: Day, i: nat)
    requires Rules.WellFormed(rules) && ScoreTable.WellFormed(st.scores)
    requires user != "" && i < |rules| && Occurs(rules[i].tag, text)
    requires rules[i].tag !in Slot(st.ledger, user) || Slot(st.ledger, user)[rules[i].tag] != today
    ensures var o := HandleMessage(rules, st, user, text, today);
            && o.points >= rules[i].points > 0
            && o.reply.Awarded?
            && Get(o.state.scores, user) >= Get(st.scores, user) + rules[i].points
  {
    EarnedCoversEligible(rules, Slot(st.ledger, user), text, today, i);
  }

  /** After the date changes, a tag credited on the earlier day is credited again. */
  lemma NextDayAwardsAgain(rules: seq<Rule>, st: State, user: User, text: string, day1: Day, day2: Day, i: nat)
    requires Rules.WellFormed(rules) && ScoreTable.WellFormed(st.scores)
    requires user != "" && i < |rules| && Occurs(rules[i].tag, text)
    requires day1 != day2
    ensures var first := HandleMessage(rules, st, user, text, day1);
            var second := HandleMessage(rules, first.state, user, text, day2);
            && second.points >= rules[i].points
            && second.reply.Awarded?
  {
    var first := HandleMessage(rules, st, user, text, day1);
    assert rules[i].tag in MatchedTags(rules, text);
    StaleTagAwarded(rules, first.state, user, text, day2, i);
  }

  /** Something is credited exactly when some rule is eligible for this user today. */
  lemma AwardedIffEligible(rules: seq<Rule>, st: State, user: User, text: string, today: Day)
    requires Rules.WellFormed(rules) && ScoreTable.WellFormed(st.scores)
    requires user != ""
    ensures HandleMessage(rules, st, user, text, today).reply.Awarded?
        <==> exists i :: 0 <= i < |rules| && Eligible(rules[i], Slot(st.ledger, user), text, today)
  {
    EarnedZeroIff(rules, Slot(st.ledger, user), text, today);
  }

  /** Totals stay non-negative and never go down. */
  lemma ScoresNeverDecrease(rules: seq<Rule>, st: State, user: User, text: string, today: Day)
    requires Rules.WellFormed(rules) && ScoreTable.Valid(st.scores)
    ensures var o := HandleMessage(rules, st, user, text, today);
            && ScoreTable.Valid(o.state.scores)
            && forall u :: Get(o.state.scores, u) >= Get(st.scores, u)
  {
  }

  /** After a reset, a tag already credited today is credited again. */
  lemma ResetReenablesTags(rules: seq<Rule>, st: State, user: User, text: string, today: Day, i: nat)
    requires Rules.WellFormed(rules) && ScoreTable.WellFormed(st.scores)
    requires user != "" && i < |rules| && Occurs(rules[i].tag, text)
    ensures var o := HandleMessage(rules, Reset(st), user, text, today);
            && o.points >= rules[i].points
            && Get(o.state.scores, user) == o.points
  {
    StaleTagAwarded(rules, Reset(st), user, text, today, i);
  }
}
