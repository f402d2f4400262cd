/** The id set beneath the indexes (zega/src/idset.rs): nothing, one id inline,
    a small vector, or a hash set.

    `Meaning` says which set a representation stands for; every operation is
    proved against that set, and whole runs are bounded in how often they move
    between the vector and the hash set. */
module IdSets {

  import opened Machine

  type Id = u64

  // The size up to which a vector is used; beyond it the ids go to a hash set.
  const FEW := 16

  datatype Form =
    | Empty
    | One(id: Id)
    | Few(ids: seq<Id>)
    | Many(table: set<Id>)

  predicate Distinct(ids: seq<Id>) {
    forall i, j :: 0 <= i < j < |ids| ==> ids[i] != ids[j]
  }

  function Elements(ids: seq<Id>): set<Id> {
    set id | id in ids
  }

  function Meaning(form: Form): set<Id> {
    match form
    case Empty => {}
    case One(id) => {id}
    case Few(ids) => Elements(ids)
    case Many(table) => table
  }

  // The sizes each representation is used for: the bands overlap, so a set
  // at a boundary does not flip with every operation.
  predicate WellFormed(form: Form) {
    match form
    case Empty => true
    case One(_) => true
    case Few(ids) => 2 <= |ids| <= FEW && Distinct(ids)
    case Many(table) => FEW / 2 < |table|
  }

  lemma {:induction false} ElementsSize(ids: seq<Id>)
    requires Distinct(ids)
    ensures |Elements(ids)| == |ids|
  {
    if ids != [] {
      var front, last := ids[..|ids| - 1], ids[|ids| - 1];
      assert ids == front + [last];
      assert Elements(ids) == Elements(front) + {last};
      ElementsSize(front);
    }
  }

  datatype Call = Insert(id: Id) | Remove(id: Id)

  function After(s: set<Id>, call: Call): set<Id> {
    if call.Insert? then s + {call.id} else s - {call.id}
  }

  // What one call may do to a representation.
  predicate Step(before: Form, call: Call, after: Form) {
    && WellFormed(after)
    && Meaning(after) == After(Meaning(before), call)
    && (before.Few? && after.Many? ==> |Meaning(before)| == FEW && |Meaning(after)| == FEW + 1)
    && (before.Many? && after.Few? ==> |Meaning(after)| == FEW / 2)
    && (after.Many? ==> before.Few? || before.Many?)
    && (before.Many? ==> after.Few? || after.Many?)
  }

  lemma {:induction false} SizeChangesByOne(s: set<Id>, call: Call)
    ensures |s| - 1 <= |After(s, call)| <= |s| + 1
  {
    if call.Insert? {
      if call.id in s {
        assert After(s, call) == s;
      }
    } else if call.id !in s {
      assert After(s, call) == s;
    }
  }

  class IdSet {
    var form: Form

    ghost predicate Valid()
      reads this
    {
      WellFormed(form)
    }

    ghost function Contents(): set<Id>
      reads this
    {
      Meaning(form)
    }

    constructor ()
      ensures Valid() && form == Empty && Contents() == {}
    {
      form := Empty;
    }

    method Insert(id: Id) returns (added: bool)
      requires Valid()
      modifies this
      ensures Valid() && Step(old(form), Call.Insert(id), form)
      ensures Contents() == old(Contents()) + {id}
      ensures added <==> id !in old(Contents())
    {
      SizeChangesByOne(Contents(), Call.Insert(id));
      match form {
        case Empty =>
          form := One(id);
        case One(one) =>
          if one == id {
            return false;
          }
          form := Few([one, id]);
        case Few(ids) =>
          ElementsSize(ids);
          if id in ids {
            return false;
          }
          if |ids| < FEW {
            ElementsSize(ids + [id]);
            form := Few(ids + [id]);
          } else {
            form := Many((set has | has in ids) + {id});
          }
          assert Contents() == Elements(ids) + {id};
        case Many(table) =>
          assert id in table ==> table + {id} == table;
          form := Many(table + {id});
          return id !in table;
      }
      return true;
    }

    method Remove(id: Id) returns (removed: bool)
      requires Valid()
      modifies this
      ensures Valid() && Step(old(form), Call.Remove(id), form)
      ensures Contents() == old(Contents()) - {id}
      ensures removed <==> id in old(Contents())
    {
      SizeChangesByOne(Contents(), Call.Remove(id));
      match form {
        case Empty =>
          return false;
        case One(one) =>
          if one != id {
            return false;
          }
          form := Empty;
          return true;
        case Few(ids) =>
          var at := Position(ids, id);
          ElementsSize(ids);
          if at == |ids| {
            return false;
          }
          var rest := SwapRemove(ids, at);
          ElementsSize(rest);
          form := if |rest| == 1 then One(rest[0]) else Few(rest);
          assert Contents() == Elements(rest);
          return true;
        case Many(table) =>
          var rest := table - {id};
          if |rest| <= FEW / 2 {
            var ids := Listing(rest);
            ElementsSize(ids);
            form := Few(ids);
          } else {
            form := Many(rest);
          }
          return id in table;
      }
    }

    method Contains(id: Id) returns (has: bool)
      requires Valid()
      ensures has <==> id in Contents()
    {
      match form
      case Empty => has := false;
      case One(one) => has := one == id;
      case Few(ids) => has := id in ids;
      case Many(table) => has := id in table;
    }

    method Len() returns (n: nat)
      requires Valid()
      ensures n == |Contents()|
    {
      match form
      case Empty => n := 0;
      case One(_) => n := 1;
      case Few(ids) =>
        ElementsSize(ids);
        n := |ids|;
      case Many(table) => n := |table|;
    }

    // Every id once, in no particular order.
    method Iterate() returns (ids: seq<Id>)
      requires Valid()
      ensures Distinct(ids) && Elements(ids) == Contents()
    {
      match form
      case Empty => ids := [];
      case One(one) => ids := [one];
      case Few(few) => ids := few;
      case Many(table) => ids := Listing(table);
    }
  }

  // The first index of `id`, or the length when it is not there.
  method Position(ids: seq<Id>, id: Id) returns (at: nat)
    ensures at <= |ids| && (at < |ids| ==> ids[at] == id)
    ensures id !in ids[..at]
  {
    at := 0;
    while at < |ids| && ids[at] != id
      invariant at <= |ids| && id !in ids[..at]
    {
      at := at + 1;
    }
  }

  // Take out index `at`, moving the last id into its place.
  method SwapRemove(ids: seq<Id>, at: nat) returns (rest: seq<Id>)
    requires at < |ids| && Distinct(ids)
    ensures |rest| == |ids| - 1 && Distinct(rest)
    ensures Elements(rest) == Elements(ids) - {ids[at]}
  {
    var last := |ids| - 1;
    rest := ids[at := ids[last]][..last];
    forall id | id in Elements(ids) && id != ids[at]
      ensures id in rest
    {
      var k :| 0 <= k < |ids| && ids[k] == id;
      assert id == if k == last then rest[at] else rest[k];
    }
  }

  // The ids of a hash set in whatever order it yields them.
  method Listing(table: set<Id>) returns (ids: seq<Id>)
    ensures Distinct(ids) && Elements(ids) == table
  {
    ids := [];
    var left := table;
    while left != {}
      invariant Distinct(ids) && Elements(ids) == table - left && left <= table
      decreases left
    {
      var id :| id in left;
      assert id !in Elements(ids);
      assert Elements(ids + [id]) == Elements(ids) + {id};
      ids := ids + [id];
      left := left - {id};
    }
  }

  // ----- whole runs -----

  // How far the next move between vector and table is, in operations already paid.
  function Paid(form: Form): int {
    match form
    case Many(table) => FEW + 1 - |table|
    case _ => |Meaning(form)| - FEW / 2
  }

  function Moves(run: seq<Form>): nat {
    if |run| <= 1 then 0
    else Moves(run[..|run| - 1]) +
         (if run[|run| - 2].Many? != run[|run| - 1].Many? then 1 else 0)
  }

  // Nine operations pay for every move, however the calls are chosen.
  lemma {:induction false} MovesAreRare(run: seq<Form>, calls: seq<Call>)
    requires |run| == |calls| + 1 && run[0] == Empty
    requires forall i :: 0 <= i < |calls| ==> Step(run[i], calls[i], run[i + 1])
    ensures 9 * Moves(run) <= |calls|
    ensures 9 * Moves(run) + Paid(run[|calls|]) <= |calls|
    decreases |calls|
  {
    if calls != [] {
      var n := |calls|;
      var before, after := run[n - 1], run[n];
      assert run[..|run| - 1][n - 1] == before;
      MovesAreRare(run[..n], calls[..n - 1]);
      SizeChangesByOne(Meaning(before), calls[n - 1]);
    }
  }
}
