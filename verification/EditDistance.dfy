/** The "did you mean" search of browser/components/schema.js: a one-row edit
    distance and the choice of the closest candidate.

    A word is a sequence of UTF-16 code units, as a JavaScript string is. The
    host's `toLowerCase` is a parameter: nothing below depends on what it maps. */
module EditDistance {
  import opened Wrappers

  type Word = seq<char>

  function Min(a: nat, b: nat): nat {
    if a <= b then a else b
  }

  function Last(a: Word): char
    requires a != []
  {
    a[|a| - 1]
  }

  function Front(a: Word): Word
    requires a != []
  {
    a[..|a| - 1]
  }

  function Mismatch(a: Word, b: Word): nat
    requires a != [] && b != []
  {
    if Last(a) == Last(b) then 0 else 1
  }

  // The textbook recursion: drop the last unit of one word, of the other, or of both.
  function Distance(a: Word, b: Word): nat
    decreases |a| + |b|
  {
    if a == [] then |b|
    else if b == [] then |a|
    else Min(Min(Distance(Front(a), b) + 1, Distance(a, Front(b)) + 1),
             Distance(Front(a), Front(b)) + Mismatch(a, b))
  }

  // ----- what the distance means: the shortest script of single edits -----

  datatype Edit =
    | Insert(at: nat, unit: char)
    | Delete(at: nat)
    | Replace(at: nat, unit: char)

  predicate Applies(e: Edit, a: Word) {
    if e.Insert? then e.at <= |a| else e.at < |a|
  }

  function Apply(e: Edit, a: Word): Word
    requires Applies(e, a)
  {
    match e
    case Insert(at, unit) => a[..at] + [unit] + a[at..]
    case Delete(at) => a[..at] + a[at + 1..]
    case Replace(at, unit) => a[at := unit]
  }

  // `script` turns `a` into `b`, one edit after another, each anywhere in the word.
  predicate Transforms(script: seq<Edit>, a: Word, b: Word) {
    if script == [] then a == b
    else Applies(script[0], a) && Transforms(script[1..], Apply(script[0], a), b)
  }

  lemma {:induction false} Unfold(a: Word, b: Word)
    ensures a == [] ==> Distance(a, b) == |b|
    ensures b == [] ==> Distance(a, b) == |a|
    ensures a != [] && b != [] ==>
              Distance(a, b) == Min(Min(Distance(Front(a), b) + 1, Distance(a, Front(b)) + 1),
                                    Distance(Front(a), Front(b)) + Mismatch(a, b))
  {
    hide Front, Mismatch, Min;
  }

  // `s` is `a` after one edit, told from the end: the edit is at the last unit or before it.
  predicate OneEditApart(a: Word, s: Word) {
    || (s != [] && Front(s) == a)
    || (a != [] && Front(a) == s)
    || (a != [] && s != [] && Front(a) == Front(s))
    || (a != [] && s != [] && Last(a) == Last(s) && OneEditApart(Front(a), Front(s)))
  }

  lemma {:induction false} EditIsOneEdit(e: Edit, a: Word)
    requires Applies(e, a)
    ensures OneEditApart(a, Apply(e, a))
    decreases |a|
  {
    var s := Apply(e, a);
    if e.at < |a| - 1 || (e.Insert? && e.at < |a|) {
      EditBeforeLast(e, a);
      EditIsOneEdit(e, Front(a));
      hide Front, Last, Apply;
    } else {
      match e
      case Insert(_, _) => InsertAtEnd(e, a);
      case Delete(_) => DeleteAtEnd(e, a);
      case Replace(_, _) => ReplaceAtEnd(e, a);
    }
  }

  // An edit before the last unit leaves that unit last.
  lemma {:induction false} EditBeforeLast(e: Edit, a: Word)
    requires a != [] && Applies(e, a) && (e.at < |a| - 1 || (e.Insert? && e.at < |a|))
    ensures Applies(e, Front(a)) && Apply(e, a) != []
    ensures Front(Apply(e, a)) == Apply(e, Front(a)) && Last(Apply(e, a)) == Last(a)
  {
    var front, last := Front(a), [Last(a)];
    assert a == front + last;
    match e
    case Insert(at, unit) =>
      assert a[..at] == front[..at] && a[at..] == front[at..] + last;
      assert front[..at] + [unit] + (front[at..] + last) == (front[..at] + [unit] + front[at..]) + last;
    case Delete(at) =>
      assert a[..at] == front[..at] && a[at + 1..] == front[at + 1..] + last;
      assert front[..at] + (front[at + 1..] + last) == (front[..at] + front[at + 1..]) + last;
    case Replace(at, unit) =>
      assert (front + last)[at := unit] == front[at := unit] + last;
  }

  lemma {:induction false} InsertAtEnd(e: Edit, a: Word)
    requires e.Insert? && e.at == |a|
    ensures Apply(e, a) != [] && Front(Apply(e, a)) == a
  {
    assert a[..|a|] == a && a[|a|..] == [];
    assert Apply(e, a) == a + [e.unit];
  }

  lemma {:induction false} DeleteAtEnd(e: Edit, a: Word)
    requires e.Delete? && e.at + 1 == |a|
    ensures Apply(e, a) == Front(a)
  {
    assert a[e.at + 1..] == [];
  }

  lemma {:induction false} ReplaceAtEnd(e: Edit, a: Word)
    requires e.Replace? && e.at + 1 == |a|
    ensures Front(Apply(e, a)) == Front(a)
  {
  }

  lemma {:induction false} LastUnitCostsOne(a: Word, b: Word)
    requires b != []
    ensures Distance(a, b) <= Distance(a, Front(b)) + 1
  {
    Unfold(a, b);
    if a == [] {
      Unfold(a, Front(b));
    }
    hide Distance;
  }

  // One unit more at the end, one less, or another one: what was known of
  // shorter words is enough.
  lemma {:induction false} OneMoreAtTheEnd(a: Word, s: Word, b: Word)
    requires s != [] && Front(s) == a && b != [] && Distance(a, Front(b)) <= Distance(s, Front(b)) + 1
    ensures Distance(a, b) <= Distance(s, b) + 1
  {
    Unfold(s, b);
    LastUnitCostsOne(a, b);
    hide Distance, Front, Last;
  }

  lemma {:induction false} AnotherAtTheEnd(a: Word, s: Word, b: Word)
    requires a != [] && s != [] && Front(a) == Front(s) && b != [] && Distance(a, Front(b)) <= Distance(s, Front(b)) + 1
    ensures Distance(a, b) <= Distance(s, b) + 1
  {
    Unfold(a, b);
    Unfold(s, b);
    hide Distance, Front, Last;
  }

  lemma {:induction false} SameAtTheEnd(a: Word, s: Word, b: Word)
    requires a != [] && s != [] && Last(a) == Last(s) && b != []
    requires Distance(a, Front(b)) <= Distance(s, Front(b)) + 1 && Distance(Front(a), b) <= Distance(Front(s), b) + 1
    requires Distance(Front(a), Front(b)) <= Distance(Front(s), Front(b)) + 1
    ensures Distance(a, b) <= Distance(s, b) + 1
  {
    Unfold(a, b);
    Unfold(s, b);
    hide Distance, Front, Last;
  }

  lemma {:induction false} OneEditChangesTheLength(a: Word, s: Word)
    requires OneEditApart(a, s)
    ensures |a| <= |s| + 1
    decreases |a|
  {
    if !(s != [] && Front(s) == a) && !(a != [] && Front(a) == s) && !(a != [] && s != [] && Front(a) == Front(s)) {
      OneEditChangesTheLength(Front(a), Front(s));
    }
  }

  // One edit moves a word by at most one.
  lemma {:induction false} OneEditCostsOne(a: Word, s: Word, b: Word)
    requires OneEditApart(a, s)
    ensures Distance(a, b) <= Distance(s, b) + 1
    decreases |a| + |s| + |b|
  {
    hide Distance;
    if b == [] {
      Unfold(a, b);
      Unfold(s, b);
      OneEditChangesTheLength(a, s);
    } else {
      OneEditCostsOne(a, s, Front(b));
      if s != [] && Front(s) == a {
        OneMoreAtTheEnd(a, s, b);
      } else if a != [] && Front(a) == s {
        Unfold(a, b);
      } else if a != [] && s != [] && Front(a) == Front(s) {
        AnotherAtTheEnd(a, s, b);
      } else {
        OneEditCostsOne(Front(a), Front(s), b);
        OneEditCostsOne(Front(a), Front(s), Front(b));
        SameAtTheEnd(a, s, b);
      }
    }
  }

  lemma {:induction false} DistanceToSelf(a: Word)
    ensures Distance(a, a) == 0
  {
    if a != [] {
      DistanceToSelf(Front(a));
    }
  }

  // No script is shorter than the distance.
  lemma {:induction false} NoScriptIsShorter(script: seq<Edit>, a: Word, b: Word)
    requires Transforms(script, a, b)
    ensures Distance(a, b) <= |script|
    decreases |script|
  {
    if script == [] {
      DistanceToSelf(a);
    } else {
      NoScriptIsShorter(script[1..], Apply(script[0], a), b);
      EditIsOneEdit(script[0], a);
      OneEditCostsOne(a, Apply(script[0], a), b);
    }
  }

  // A script that works on `a` and leaves `b` works on `a + s` and leaves `b + s`.
  lemma {:induction false} ScriptBeforeSuffix(script: seq<Edit>, a: Word, b: Word, s: Word)
    requires Transforms(script, a, b)
    ensures Transforms(script, a + s, b + s)
    decreases |script|
  {
    if script != [] {
      var e := script[0];
      assert Applies(e, a + s);
      assert Apply(e, a + s) == Apply(e, a) + s;
      ScriptBeforeSuffix(script[1..], Apply(e, a), b, s);
    }
  }

  lemma {:induction false} PrependEdit(e: Edit, rest: seq<Edit>, a: Word, b: Word)
    requires Applies(e, a) && Transforms(rest, Apply(e, a), b)
    ensures Transforms([e] + rest, a, b)
  {
    assert ([e] + rest)[1..] == rest;
  }

  lemma {:induction false} DeleteLast(rest: seq<Edit>, a: Word, b: Word) returns (script: seq<Edit>)
    requires a != [] && Transforms(rest, Front(a), b)
    ensures Transforms(script, a, b) && |script| == |rest| + 1
  {
    var e := Delete(|a| - 1);
    assert Apply(e, a) == Front(a);
    PrependEdit(e, rest, a, b);
    script := [e] + rest;
  }

  lemma {:induction false} InsertLast(rest: seq<Edit>, a: Word, b: Word) returns (script: seq<Edit>)
    requires b != [] && Transforms(rest, a, Front(b))
    ensures Transforms(script, a, b) && |script| == |rest| + 1
  {
    var e := Insert(|a|, Last(b));
    assert Apply(e, a) == a + [Last(b)];
    assert Front(b) + [Last(b)] == b;
    ScriptBeforeSuffix(rest, a, Front(b), [Last(b)]);
    PrependEdit(e, rest, a, b);
    script := [e] + rest;
  }

  lemma {:induction false} FrontAndLast(a: Word)
    requires a != []
    ensures Front(a) + [Last(a)] == a
  {
  }

  lemma {:induction false} MatchLast(rest: seq<Edit>, a: Word, b: Word) returns (script: seq<Edit>)
    requires a != [] && b != [] && Transforms(rest, Front(a), Front(b))
    ensures Transforms(script, a, b) && |script| == |rest| + Mismatch(a, b)
  {
    var c := Front(a) + [Last(b)];
    assert Transforms(rest, c, b) by {
      ScriptBeforeSuffix(rest, Front(a), Front(b), [Last(b)]);
      FrontAndLast(b);
    }
    if Last(a) == Last(b) {
      FrontAndLast(a);
      script := rest;
    } else {
      var e := Replace(|a| - 1, Last(b));
      assert Apply(e, a) == c;
      PrependEdit(e, rest, a, b);
      script := [e] + rest;
    }
  }

  // A script of exactly that length exists.
  lemma {:induction false} SomeScriptReaches(a: Word, b: Word) returns (script: seq<Edit>)
    ensures Transforms(script, a, b) && |script| == Distance(a, b)
    decreases |a| + |b|
  {
    if a == [] && b == [] {
      script := [];
    } else if b == [] || (a != [] && Distance(a, b) == Distance(Front(a), b) + 1) {
      var rest := SomeScriptReaches(Front(a), b);
      script := DeleteLast(rest, a, b);
    } else if a == [] || Distance(a, b) == Distance(a, Front(b)) + 1 {
      var rest := SomeScriptReaches(a, Front(b));
      script := InsertLast(rest, a, b);
    } else {
      var rest := SomeScriptReaches(Front(a), Front(b));
      script := MatchLast(rest, a, b);
    }
  }

  // The distance is the least number of single edits that turn one word into the other.
  lemma {:induction false} DistanceIsShortestScript(a: Word, b: Word)
    ensures exists script :: Transforms(script, a, b) && |script| == Distance(a, b)
    ensures forall script :: Transforms(script, a, b) ==> Distance(a, b) <= |script|
  {
    var best := SomeScriptReaches(a, b);
    forall script | Transforms(script, a, b)
      ensures Distance(a, b) <= |script|
    {
      NoScriptIsShorter(script, a, b);
    }
  }

  // ----- the one-row table -----

  lemma {:induction false} FrontOfTake(a: Word, i: nat)
    requires 0 < i <= |a|
    ensures a[..i] != [] && Front(a[..i]) == a[..i - 1] && Last(a[..i]) == a[i - 1]
  {
  }

  // One table row, overwritten from left to right: `prev` keeps the entry up and to the left.
  method RowDistance(a: Word, b: Word) returns (d: nat)
    ensures d == Distance(a, b)
  {
    hide Distance, Front, Last;
    var row := new nat[|b| + 1](j => j);
    forall j | 0 <= j <= |b|
      ensures Distance(a[..0], b[..j]) == j
    {
      Unfold(a[..0], b[..j]);
    }
    var i := 1;
    while i <= |a|
      invariant 1 <= i <= |a| + 1
      invariant forall j :: 0 <= j <= |b| ==> row[j] == Distance(a[..i - 1], b[..j])
    {
      FrontOfTake(a, i);
      Unfold(a[..i], b[..0]);
      var prev := row[0];
      row[0] := i;
      var j := 1;
      while j <= |b|
        invariant 1 <= j <= |b| + 1
        invariant prev == Distance(a[..i - 1], b[..j - 1])
        invariant forall k :: 0 <= k < j ==> row[k] == Distance(a[..i], b[..k])
        invariant forall k :: j <= k <= |b| ==> row[k] == Distance(a[..i - 1], b[..k])
      {
        FrontOfTake(b, j);
        Unfold(a[..i], b[..j]);
        var tmp := row[j];
        row[j] := Min(Min(row[j] + 1, row[j - 1] + 1), prev + (if a[i - 1] == b[j - 1] then 0 else 1));
        prev := tmp;
        j := j + 1;
      }
      i := i + 1;
    }
    assert a[..|a|] == a && b[..|b|] == b;
    d := row[|b|];
  }

  // ----- the choice -----

  // What a caller may pass as the word: anything but a string is refused.
  datatype Argument = Text(word: Word) | NotText

  datatype Score = Infinite | Finite(distance: nat)

  function Tolerance(word: Word): nat {
    if |word| / 3 >= 2 then |word| / 3 else 2
  }

  function Apart(lower: Word -> Word, word: Word, candidate: Word): nat {
    Distance(lower(word), lower(candidate))
  }

  lemma {:induction false} ApartIsDistance(lower: Word -> Word, word: Word, candidate: Word)
    ensures Apart(lower, word, candidate) == Distance(lower(word), lower(candidate))
  {
  }

  // Of the first `n` candidates, `at` is the first that no other beats.
  ghost predicate FirstClosest(lower: Word -> Word, word: Word, candidates: seq<Word>, n: nat, at: nat)
    requires n <= |candidates|
  {
    && at < n
    && (forall k :: 0 <= k < n ==> Apart(lower, word, candidates[at]) <= Apart(lower, word, candidates[k]))
    && (forall k :: 0 <= k < at ==> Apart(lower, word, candidates[at]) < Apart(lower, word, candidates[k]))
  }

  method Closest(lower: Word -> Word, argument: Argument, candidates: seq<Word>) returns (best: Option<Word>)
    ensures argument.NotText? || |argument.word| > 64 || candidates == [] ==> best == None
    ensures argument.Text? && |argument.word| <= 64 && candidates != [] ==>
              exists at: nat :: FirstClosest(lower, argument.word, candidates, |candidates|, at) &&
                best == if Apart(lower, argument.word, candidates[at]) <= Tolerance(argument.word)
                        then Some(candidates[at]) else None
  {
    hide Distance, Apart;
    if argument.NotText? || |argument.word| > 64 {
      return None;
    }
    var word := argument.word;
    best := None;
    var score := Infinite;
    ghost var at := 0;
    var n := 0;
    while n < |candidates|
      invariant 0 <= n <= |candidates|
      invariant n == 0 ==> score == Infinite && best == None
      invariant n > 0 ==>
                  && FirstClosest(lower, word, candidates, n, at)
                  && best == Some(candidates[at]) && score == Finite(Apart(lower, word, candidates[at]))
    {
      var candidate := candidates[n];
      var d := RowDistance(lower(word), lower(candidate));
      ApartIsDistance(lower, word, candidate);
      if score.Infinite? || d < score.distance {
        score, best := Finite(d), Some(candidate);
        at := n;
      }
      n := n + 1;
    }
    if score.Infinite? || score.distance > Tolerance(word) {
      best := None;
    }
  }
}
