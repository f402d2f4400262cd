/** The trigram index of one text field (`TextIndex`, `grams` and `padded` in
    zega/src/index.rs). */
module TextIndexes {
  import opened Machine
  import opened Wrappers

  datatype Gram = Gram(a: char, b: char, c: char)

  const START: char := '\U{2}'
  const END: char := '\U{3}'

  // Every three neighbouring characters.
  function Grams(chars: string): set<Gram> {
    set i | 0 <= i < |chars| - 2 :: GramAt(chars, i)
  }

  function GramAt(chars: string, i: nat): Gram
    requires i + 2 < |chars|
  {
    Gram(chars[i], chars[i + 1], chars[i + 2])
  }

  function Padded(text: string): string {
    [START] + text + [END]
  }

  datatype Pattern = Contains(needle: string) | StartsWith(needle: string) | EndsWith(needle: string)

  function Probe(p: Pattern): string {
    match p
    case Contains(needle) => needle
    case StartsWith(needle) => [START] + needle
    case EndsWith(needle) => needle + [END]
  }

  predicate IsAt(text: string, needle: string, i: nat) {
    i + |needle| <= |text| && text[i..i + |needle|] == needle
  }

  // What the executor tests: text as it is, without markers.
  predicate Matches(p: Pattern, text: string) {
    match p
    case Contains(needle) => exists i: nat | i <= |text| :: IsAt(text, needle, i)
    case StartsWith(needle) => IsAt(text, needle, 0)
    case EndsWith(needle) => |needle| <= |text| && IsAt(text, needle, |text| - |needle|)
  }

  // The grams of a text are the strings of three characters in it.
  lemma {:induction false} GramsAreParts(chars: string, g: Gram)
    ensures g in Grams(chars) <==> exists i: nat | i <= |chars| :: IsAt(chars, [g.a, g.b, g.c], i)
  {
    forall i: nat | i + 2 < |chars|
      ensures GramAt(chars, i) == g <==> IsAt(chars, [g.a, g.b, g.c], i)
    {
      assert chars[i..i + 3] == [chars[i], chars[i + 1], chars[i + 2]];
    }
    if exists i: nat | i <= |chars| :: IsAt(chars, [g.a, g.b, g.c], i) {
      var i: nat :| i <= |chars| && IsAt(chars, [g.a, g.b, g.c], i);
      assert GramAt(chars, i) == g;
    }
  }

  lemma {:induction false} GramsOfPart(text: string, part: string, i: nat)
    requires IsAt(text, part, i)
    ensures Grams(part) <= Grams(text)
  {
    forall g | g in Grams(part)
      ensures g in Grams(text)
    {
      var j :| 0 <= j < |part| - 2 && GramAt(part, j) == g;
      var found := text[i..i + |part|];
      assert found[j] == text[i + j] && found[j + 1] == text[i + j + 1] && found[j + 2] == text[i + j + 2];
      assert GramAt(text, i + j) == g;
    }
  }

  // A match has every gram of the probe.
  lemma {:induction false} MatchHasEveryGram(p: Pattern, text: string)
    requires Matches(p, text)
    ensures Grams(Probe(p)) <= Grams(Padded(text))
  {
    hide Grams;
    var all, n := Padded(text), |p.needle|;
    match p
    case Contains(needle) =>
      var i: nat :| i <= |text| && IsAt(text, needle, i);
      assert all[i + 1..i + 1 + n] == text[i..i + n];
      GramsOfPart(all, needle, i + 1);
    case StartsWith(needle) =>
      assert all[..n + 1] == [START] + text[..n];
      GramsOfPart(all, [START] + needle, 0);
    case EndsWith(needle) =>
      var i := |text| - n;
      assert all[i + 1..] == text[i..] + [END];
      GramsOfPart(all, needle + [END], i + 1);
  }

  // ----- the postings -----

  // Which ids have each gram, and which have a text at all.
  datatype Postings = Postings(grams: map<Gram, set<u64>>, all: set<u64>)

  const NOTHING := Postings(map[], {})

  predicate Has(grams: map<Gram, set<u64>>, g: Gram, id: u64) {
    g in grams && id in grams[g]
  }

  ghost predicate Agrees(p: Postings, texts: map<u64, string>) {
    && p.all == texts.Keys
    && (forall g: Gram, id: u64 :: Has(p.grams, g, id) <==> id in texts && g in Grams(Padded(texts[id])))
    && NoneEmpty(p.grams)
  }

  ghost predicate NoneEmpty(grams: map<Gram, set<u64>>) {
    forall g: Gram :: g in grams ==> grams[g] != {}
  }

  // What inserting does to any postings, and what removing does.
  ghost predicate IsPosted(p: Postings, q: Postings, id: u64, text: string) {
    && q.all == p.all + {id} && (NoneEmpty(p.grams) ==> NoneEmpty(q.grams))
    && forall g: Gram, i: u64 :: Has(q.grams, g, i) <==> Has(p.grams, g, i) || (i == id && g in Grams(Padded(text)))
  }

  ghost predicate IsUnposted(p: Postings, q: Postings, id: u64, text: string) {
    && q.all == p.all - {id} && (NoneEmpty(p.grams) ==> NoneEmpty(q.grams))
    && forall g: Gram, i: u64 :: Has(q.grams, g, i) <==> Has(p.grams, g, i) && !(i == id && g in Grams(Padded(text)))
  }

  // The text has every gram of the one the id has, if it has one.
  predicate Covers(texts: map<u64, string>, id: u64, text: string) {
    id in texts ==> Grams(Padded(texts[id])) <= Grams(Padded(text))
  }

  // Inserting a text makes it the text of its id if and only if no gram of an
  // earlier one is left over.
  lemma {:induction false} PostedAgreesExactly(p: Postings, q: Postings, id: u64, text: string, texts: map<u64, string>)
    requires Agrees(p, texts) && IsPosted(p, q, id, text)
    ensures Agrees(q, texts[id := text]) <==> Covers(texts, id, text)
  {
    hide Grams;
    if Agrees(q, texts[id := text]) && id in texts {
      forall g | g in Grams(Padded(texts[id]))
        ensures g in Grams(Padded(text))
      {
        assert Has(p.grams, g, id) && Has(q.grams, g, id);
      }
    }
  }

  // The same of removing.
  lemma {:induction false} UnpostedAgreesExactly(p: Postings, q: Postings, id: u64, text: string, texts: map<u64, string>)
    requires Agrees(p, texts) && IsUnposted(p, q, id, text)
    ensures Agrees(q, texts - {id}) <==> Covers(texts, id, text)
  {
    hide Grams;
    if Agrees(q, texts - {id}) && id in texts {
      forall g | g in Grams(Padded(texts[id]))
        ensures g in Grams(Padded(text))
      {
        assert Has(p.grams, g, id) && !Has(q.grams, g, id);
      }
    }
  }

  // The postings of given texts are unique.
  lemma {:induction false} AgreeingPostingsAreEqual(p: Postings, q: Postings, texts: map<u64, string>)
    requires Agrees(p, texts) && Agrees(q, texts)
    ensures p == q
  {
    forall g: Gram
      ensures g in p.grams <==> g in q.grams
      ensures g in p.grams ==> p.grams[g] == q.grams[g]
    {
      hide Grams;
      if g in p.grams {
        var id :| id in p.grams[g];
        assert Has(p.grams, g, id) && Has(q.grams, g, id);
      }
      if g in q.grams {
        var id :| id in q.grams[g];
        assert Has(q.grams, g, id) && Has(p.grams, g, id);
      }
      forall id: u64
        ensures Has(p.grams, g, id) <==> Has(q.grams, g, id)
      {
      }
      if g in p.grams {
        assert forall id: u64 :: id in p.grams[g] <==> Has(p.grams, g, id);
        assert forall id: u64 :: id in q.grams[g] <==> Has(q.grams, g, id);
      }
    }
  }

  function WithGram(m: map<Gram, set<u64>>, g: Gram, id: u64): map<Gram, set<u64>> {
    m[g := (if g in m then m[g] else {}) + {id}]
  }

  function WithoutGram(m: map<Gram, set<u64>>, g: Gram, id: u64): map<Gram, set<u64>> {
    if g !in m then m else if m[g] - {id} == {} then m - {g} else m[g := m[g] - {id}]
  }

  lemma {:induction false} WithGramHolds(m: map<Gram, set<u64>>, g: Gram, id: u64)
    ensures forall h: Gram, i: u64 :: Has(WithGram(m, g, id), h, i) <==> Has(m, h, i) || (h == g && i == id)
    ensures NoneEmpty(m) ==> NoneEmpty(WithGram(m, g, id))
  {
    assert id in WithGram(m, g, id)[g];
  }

  lemma {:induction false} WithoutGramHolds(m: map<Gram, set<u64>>, g: Gram, id: u64)
    ensures forall h: Gram, i: u64 :: Has(WithoutGram(m, g, id), h, i) <==> Has(m, h, i) && !(h == g && i == id)
    ensures NoneEmpty(m) ==> NoneEmpty(WithoutGram(m, g, id))
  {
    if g in m {
      assert forall i: u64 :: i in m[g] ==> i == id || i in m[g] - {id};
    }
  }

  class TextIndex {
    var postings: Postings

    constructor ()
      ensures postings == NOTHING && Agrees(postings, map[])
    {
      postings := NOTHING;
    }

    method Insert(id: u64, text: string)
      modifies this
      ensures IsPosted(old(postings), postings, id, text)
      ensures forall texts: map<u64, string> | Agrees(old(postings), texts) ::
        Agrees(postings, texts[id := text]) <==> Covers(texts, id, text)
    {
      hide Agrees, IsPosted, Covers;
      postings := Posted(postings, id, text);
      forall texts: map<u64, string> | Agrees(old(postings), texts)
        ensures Agrees(postings, texts[id := text]) <==> Covers(texts, id, text)
      {
        PostedAgreesExactly(old(postings), postings, id, text, texts);
      }
    }

    method Remove(id: u64, text: string)
      modifies this
      ensures IsUnposted(old(postings), postings, id, text)
      ensures forall texts: map<u64, string> | Agrees(old(postings), texts) ::
        Agrees(postings, texts - {id}) <==> Covers(texts, id, text)
    {
      hide Agrees, IsUnposted, Covers;
      postings := Unposted(postings, id, text);
      forall texts: map<u64, string> | Agrees(old(postings), texts)
        ensures Agrees(postings, texts - {id}) <==> Covers(texts, id, text)
      {
        UnpostedAgreesExactly(old(postings), postings, id, text, texts);
      }
    }

    // For a probe of three characters or more, exactly the ids whose padded
    // text has every gram of it; otherwise every id. Never fewer than match.
    method Candidates(p: Pattern) returns (ids: set<u64>)
      ensures |Probe(p)| >= 3 ==> forall id: u64 :: id in ids <==> HasAll(postings, Grams(Probe(p)), id)
      ensures |Probe(p)| < 3 ==> ids == postings.all
      ensures forall texts: map<u64, string> | Agrees(postings, texts) ::
        && ids <= texts.Keys
        && (forall id: u64 :: id in ids <==> id in texts && MayMatch(p, texts[id]))
        && (forall id: u64 :: id in texts && Matches(p, texts[id]) ==> id in ids)
    {
      hide Agrees, MayMatch, HasAll, Grams, Matches, Probe;
      ids := Find(postings, Probe(p));
      forall texts: map<u64, string> | Agrees(postings, texts)
        ensures ids <= texts.Keys
        ensures forall id: u64 :: id in ids <==> id in texts && MayMatch(p, texts[id])
        ensures forall id: u64 :: id in texts && Matches(p, texts[id]) ==> id in ids
      {
        FoundMayMatch(postings, p, ids, texts);
        forall id: u64 | id in texts && Matches(p, texts[id])
          ensures MayMatch(p, texts[id])
        {
          MatchMayMatch(p, texts[id]);
        }
      }
    }
  }

  // Whether the index alone takes a text for a match: it has every gram of a
  // probe that is long enough to have any.
  predicate MayMatch(p: Pattern, text: string) {
    |Probe(p)| >= 3 ==> Grams(Probe(p)) <= Grams(Padded(text))
  }

  lemma {:induction false} MatchMayMatch(p: Pattern, text: string)
    requires Matches(p, text)
    ensures MayMatch(p, text)
  {
    hide Grams, Matches, Probe;
    MatchHasEveryGram(p, text);
  }

  lemma {:induction false} FoundMayMatch(q: Postings, p: Pattern, ids: set<u64>, texts: map<u64, string>)
    requires Agrees(q, texts)
    requires |Probe(p)| >= 3 ==> forall id: u64 :: id in ids <==> HasAll(q, Grams(Probe(p)), id)
    requires |Probe(p)| < 3 ==> ids == q.all
    ensures forall id: u64 :: id in ids <==> id in texts && MayMatch(p, texts[id])
  {
    if |Probe(p)| >= 3 {
      assert GramAt(Probe(p), 0) in Grams(Probe(p));
      hide Grams, Probe;
      forall id: u64
        ensures HasAll(q, Grams(Probe(p)), id) <==> id in texts && Grams(Probe(p)) <= Grams(Padded(texts[id]))
      {
        if HasAll(q, Grams(Probe(p)), id) {
          assert Has(q.grams, GramAt(Probe(p), 0), id);
        }
      }
    }
  }

  method Posted(p: Postings, id: u64, text: string) returns (q: Postings)
    ensures IsPosted(p, q, id, text)
  {
    hide Grams, WithGram, WithoutGram, Has, NoneEmpty;
    var all := Grams(Padded(text));
    var grams, left := p.grams, all;
    while left != {}
      invariant left <= all
      invariant forall g: Gram, i: u64 ::
        Has(grams, g, i) <==> Has(p.grams, g, i) || (i == id && g in all - left)
      invariant NoneEmpty(p.grams) ==> NoneEmpty(grams)
      decreases left
    {
      var g: Gram :| g in left;
      WithGramHolds(grams, g, id);
      ghost var done := all - left;
      grams := WithGram(grams, g, id);
      left := left - {g};
      assert all - left == done + {g};
    }
    assert all - left == all;
    q := Postings(grams, p.all + {id});
  }

  method Unposted(p: Postings, id: u64, text: string) returns (q: Postings)
    ensures IsUnposted(p, q, id, text)
  {
    hide Grams, WithGram, WithoutGram, Has, NoneEmpty;
    var all := Grams(Padded(text));
    var grams, left := p.grams, all;
    while left != {}
      invariant left <= all
      invariant forall g: Gram, i: u64 ::
        Has(grams, g, i) <==> Has(p.grams, g, i) && !(i == id && g in all - left)
      invariant NoneEmpty(p.grams) ==> NoneEmpty(grams)
      decreases left
    {
      var g :| g in left;
      WithoutGramHolds(grams, g, id);
      ghost var done := all - left;
      grams := WithoutGram(grams, g, id);
      left := left - {g};
      assert all - left == done + {g};
    }
    assert all - left == all;
    q := Postings(grams, p.all - {id});
  }

  predicate HasAll(p: Postings, grams: set<Gram>, id: u64) {
    forall g | g in grams :: Has(p.grams, g, id)
  }

  predicate InAll(lists: seq<set<u64>>, id: u64) {
    forall i | 0 <= i < |lists| :: id in lists[i]
  }

  lemma {:induction false} OneMoreList(lists: seq<set<u64>>, ids: set<u64>, id: u64)
    ensures InAll(lists + [ids], id) <==> InAll(lists, id) && id in ids
  {
    var more := lists + [ids];
    assert more[|lists|] == ids;
    if InAll(more, id) {
      assert forall i | 0 <= i < |lists| :: more[i] == lists[i];
    }
  }

  method Find(p: Postings, probe: string) returns (ids: set<u64>)
    ensures |probe| < 3 ==> ids == p.all
    ensures |probe| >= 3 ==> forall id: u64 :: id in ids <==> HasAll(p, Grams(probe), id)
  {
    if |probe| < 3 {
      return p.all;
    }
    var all := Grams(probe);
    assert GramAt(probe, 0) in all;
    hide Grams, InAll;
    var lists, missing := Lists(p, all);
    if missing {
      // A gram no text has: nothing has them all.
      return {};
    }
    var first := Shortest(lists);
    ids := set id | id in lists[first] && InAll(lists, id);
    forall id: u64
      ensures id in ids <==> HasAll(p, all, id)
    {
      if InAll(lists, id) {
        InAllIsInEach(lists, first, id);
      }
    }
  }

  lemma {:induction false} InAllIsInEach(lists: seq<set<u64>>, i: nat, id: u64)
    requires InAll(lists, id) && i < |lists|
    ensures id in lists[i]
  {
  }

  // The id lists of some grams, or that one of them has none.
  method Lists(p: Postings, all: set<Gram>) returns (lists: seq<set<u64>>, missing: bool)
    ensures missing ==> exists g: Gram :: g in all && g !in p.grams
    ensures !missing ==> forall id: u64 :: HasAll(p, all, id) <==> InAll(lists, id)
    ensures !missing && all != {} ==> lists != []
  {
    lists, missing := [], false;
    var left := all;
    while left != {}
      invariant left <= all
      invariant forall id: u64 :: HasAll(p, all - left, id) <==> InAll(lists, id)
      invariant all != left ==> lists != []
      decreases left
    {
      var g: Gram :| g in left;
      if g !in p.grams {
        assert g in all;
        missing := true;
        return;
      }
      ghost var done := all - left;
      forall id: u64
        ensures HasAll(p, done + {g}, id) <==> InAll(lists + [p.grams[g]], id)
      {
        OneMoreList(lists, p.grams[g], id);
      }
      lists := lists + [p.grams[g]];
      left := left - {g};
      assert all - left == done + {g};
    }
    assert all - left == all;
  }

  // The shortest list is gone through; the others are only asked.
  method Shortest(lists: seq<set<u64>>) returns (first: nat)
    requires lists != []
    ensures first < |lists| && forall i | 0 <= i < |lists| :: |lists[first]| <= |lists[i]|
  {
    first := 0;
    var i := 1;
    while i < |lists|
      invariant 1 <= i <= |lists| && first < |lists|
      invariant forall j | 0 <= j < i :: |lists[first]| <= |lists[j]|
    {
      if |lists[i]| < |lists[first]| {
        first := i;
      }
      i := i + 1;
    }
  }
}
