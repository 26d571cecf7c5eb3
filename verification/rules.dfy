/**
 The hashtag rule table of the scoring bot and the test that decides whether a
 rule's tag appears in a message.
 */
module Rules {

  type Tag = string

  /** A hashtag and the number of points one use of it is worth. */
  datatype Rule = Rule(tag: Tag, points: int)

  /** The rule table, in the insertion order of the source's dictionary. */
  const Table: seq<Rule> := [
    Rule("#bilancia", 5),
    Rule("#colazioneequilibrata", 5),
    Rule("#collagene", 5),
    Rule("#bombetta", 5),
    Rule("#ricostruttore", 5),
    Rule("#idratazionespecifica", 5),
    Rule("#phytocomplete", 5),
    Rule("#pranzobilanciato", 8),
    Rule("#cenabilanciata", 8),
    Rule("#spuntino1", 8),
    Rule("#spuntino2", 8),
    Rule("#integrazione1", 8),
    Rule("#integrazione2", 8),
    Rule("#workout", 10),
    Rule("#pastosostitutivo", 10),
    Rule("#sensazioni", 10),
    Rule("#kitnewenergy", 10),
    Rule("#fotoiniziale", 10),
    Rule("#fotofinale", 10)
  ]

  /** No tag is listed twice: the table is a dictionary keyed by tag. */
  predicate DistinctTags(rules: seq<Rule>) {
    forall i, j :: 0 <= i < j < |rules| ==> rules[i].tag != rules[j].tag
  }

  /** Every rule is worth a positive number of points. */
  predicate PositivePoints(rules: seq<Rule>) {
    forall i :: 0 <= i < |rules| ==> rules[i].points > 0
  }

  predicate WellFormed(rules: seq<Rule>) {
    DistinctTags(rules) && PositivePoints(rules)
  }

  /** Length, third character and last character of a tag: enough to tell the table's tags apart. */
  function Fingerprint(t: Tag): (int, char, char) {
    if |t| < 3 then (|t|, 0 as char, 0 as char) else (|t|, t[2], t[|t| - 1])
  }

  /** The fingerprints of the table's tags, in table order; no two are equal. */
  const TablePrints: seq<(int, char, char)> := [
    (9, 'i', 'a'), (21, 'o', 'a'), (10, 'o', 'e'), (9, 'o', 'a'), (14, 'i', 'e'), (21, 'd', 'a'),
    (14, 'h', 'e'), (17, 'r', 'o'), (15, 'e', 'a'), (10, 'p', '1'), (10, 'p', '2'), (14, 'n', '1'),
    (14, 'n', '2'), (8, 'o', 't'), (17, 'a', 'o'), (11, 'e', 'i'), (13, 'i', 'y'), (13, 'o', 'e'),
    (11, 'o', 'e')
  ]

  lemma TablePrint(i: nat)
    requires i < |Table|
    ensures i < |TablePrints| && Fingerprint(Table[i].tag) == TablePrints[i]
  {
  }

  /** The fixed table is a well-formed rule set. */
  lemma TableWellFormed()
    ensures WellFormed(Table)
    ensures |Table| == 19
  {
    forall i, j | 0 <= i < j < |Table|
      ensures Table[i].tag != Table[j].tag
    {
      TablePrint(i);
      TablePrint(j);
    }
  }

  predicate IsPrefix(tag: string, text: string) {
    |tag| <= |text| && text[..|tag|] == tag
  }

  /** Substring containment, as Python's `tag in text`: case-sensitive, and the empty tag occurs everywhere. */
  predicate Occurs(tag: string, text: string)
    decreases |text|
  {
    IsPrefix(tag, text) || (|text| > 0 && Occurs(tag, text[1..]))
  }

  /** `tag` sits in `text` starting at index `i`. */
  predicate OccursAtIndex(tag: string, text: string, i: int) {
    0 <= i <= |text| - |tag| && text[i..i + |tag|] == tag
  }

  /** `Occurs` agrees with the positional definition of a substring. */
  lemma {:induction false} OccursAt(tag: string, text: string)
    ensures Occurs(tag, text) <==> exists i :: OccursAtIndex(tag, text, i)
    decreases |text|
  {
    if Occurs(tag, text) {
      if IsPrefix(tag, text) {
        assert OccursAtIndex(tag, text, 0);
      } else {
        OccursAt(tag, text[1..]);
        var k :| OccursAtIndex(tag, text[1..], k);
        assert text[k + 1..k + 1 + |tag|] == text[1..][k..k + |tag|];
        assert OccursAtIndex(tag, text, k + 1);
      }
    }
    if exists i :: OccursAtIndex(tag, text, i) {
      var i :| OccursAtIndex(tag, text, i);
      if i == 0 {
        assert IsPrefix(tag, text);
      } else {
        assert text[1..][i - 1..i - 1 + |tag|] == text[i..i + |tag|];
        assert OccursAtIndex(tag, text[1..], i - 1);
        OccursAt(tag, text[1..]);
      }
    }
  }
}
