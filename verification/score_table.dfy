/**
 The score table: each user's accumulated points, together with the order in
 which users were first added, as a Python dictionary keeps its keys.
 */
module ScoreTable {

  /** The key the bot files a user under (username, or first name when there is none). */
  type User = string

  /** One line of the table: a user and their total. */
  datatype Entry = Entry(user: User, points: int)

  /** `totals` maps each user to their points; `order` lists the users by first insertion. */
  datatype Table = Table(totals: map<User, int>, order: seq<User>)

  const Empty := Table(map[], [])

  /** `order` lists exactly the users of `totals`, each once, as a dictionary's key order does. */
  predicate WellFormed(t: Table) {
    && (forall u :: u in t.totals ==> u in t.order)
    && (forall u :: u in t.order ==> u in t.totals)
    && (forall i, j :: 0 <= i < j < |t.order| ==> t.order[i] != t.order[j])
  }

  /** A table the bot can reach: well-formed, and no total is negative. */
  predicate Valid(t: Table) {
    WellFormed(t) && forall u :: u in t.totals ==> t.totals[u] >= 0
  }

  /** The user's total, 0 for a user without an entry (`classifica.get(user, 0)`). */
  function Get(t: Table, user: User): (r: int)
    ensures user !in t.totals ==> r == 0
    ensures Valid(t) ==> r >= 0
  {
    if user in t.totals then t.totals[user] else 0
  }

  /** The table's lines in insertion order (`classifica.items()`). */
  function Entries(t: Table): (es: seq<Entry>)
    requires WellFormed(t)
    ensures |es| == |t.order|
    ensures forall i :: 0 <= i < |es| ==> es[i].user == t.order[i] && es[i].points == Get(t, t.order[i])
  {
    seq(|t.order|, i requires 0 <= i < |t.order| => Entry(t.order[i], t.totals[t.order[i]]))
  }

  /**
   Adds `delta` to the user's total (`classifica[user] = classifica.get(user, 0) + delta`):
   an existing user keeps their place, a new user starts from 0 and is placed last.
   */
  function Add(t: Table, user: User, delta: int): (r: Table)
    requires WellFormed(t)
    ensures WellFormed(r)
    ensures Get(r, user) == Get(t, user) + delta
    ensures forall u :: u != user ==> Get(r, u) == Get(t, u)
    ensures r.totals.Keys == t.totals.Keys + {user}
    ensures user in t.totals ==> r.order == t.order
    ensures user !in t.totals ==> r.order == t.order + [user]
  {
    if user in t.totals then Table(t.totals[user := t.totals[user] + delta], t.order)
    else Table(t.totals[user := 0 + delta], t.order + [user])
  }
}
