/**
 * The diff engine of the sync job (`compare_tables`): it compares the current and
 * the previous snapshot of a Ruby Hash (MD5 fingerprints of stock records, or
 * department/category names) and classifies every key that changed as new,
 * updated or deleted, counting each class for the log.
 *
 * A Ruby Hash answers nil both for a missing key and for a key stored with a nil
 * value; `map<int, Option<Value>>` keeps both possibilities and `Get` reads it the way
 * Ruby does.
 */
module Diff {
  import opened Wrappers

  datatype Action = New | Update | Delete

  /** The values compared are MD5 fingerprints or department/category names. */
  type Value = string

  // Every Hash the job compares is keyed by an integer database id.

  /** The per-class tallies `value_change_count` keeps. */
  datatype ChangeCount = ChangeCount(updated: nat, added: nat, deleted: nat)

  /** `hash[id]`: nil for a missing key as well as for a stored nil. */
  function Get(m: map<int, Option<Value>>, k: int): Option<Value>
  {
    if k in m then m[k] else None
  }

  /** A Hash read from the database or computed by the job holds no nil values. */
  function Lift(m: map<int, Value>): (r: map<int, Option<Value>>)
    ensures r.Keys == m.Keys
    ensures forall k :: k in m ==> Get(r, k) == Some(m[k])
  {
    map k | k in m :: Some(m[k])
  }

  predicate NoNil(m: map<int, Option<Value>>)
  {
    forall k :: k in m ==> m[k].Some?
  }

  /**
   * What a change means, with nil and absence treated alike: a key whose value
   * is the same in both snapshots did not change; otherwise it is new when the
   * previous value is nil, deleted when the current value is nil, and updated
   * when both are present.
   */
  function Classification(cur: map<int, Option<Value>>, prev: map<int, Option<Value>>): (r: map<int, Action>)
    ensures forall k :: k in r <==> Get(cur, k) != Get(prev, k)
    ensures forall k :: k in r && r[k] == New <==> Get(prev, k) == None && Get(cur, k) != None
    ensures forall k :: k in r && r[k] == Delete <==> Get(prev, k) != None && Get(cur, k) == None
    ensures forall k :: k in r && r[k] == Update <==> Get(prev, k) != None && Get(cur, k) != None && Get(prev, k) != Get(cur, k)
  {
    map k | k in cur.Keys + prev.Keys && Get(cur, k) != Get(prev, k) ::
      if Get(prev, k) == None then New else if Get(cur, k) == None then Delete else Update
  }

  // ---------------------------------------------------------------------------
  // The two passes of compare_tables, as the code runs them
  // ---------------------------------------------------------------------------

  /** The first loop, over the previous snapshot, restricted to the keys in `done`. */
  function FirstPass(cur: map<int, Option<Value>>, prev: map<int, Option<Value>>, done: set<int>): map<int, Action>
  {
    map k | k in done && Get(prev, k) != Get(cur, k) :: if Get(cur, k) == None then Delete else Update
  }

  /** The second loop, over the current snapshot, restricted to the keys in `done`. */
  function SecondPass(cur: map<int, Option<Value>>, prev: map<int, Option<Value>>, done: set<int>): map<int, Action>
  {
    map k | k in done && Get(cur, k) != Get(prev, k) && Get(prev, k) == None :: New
  }

  /** The keys a set of marks labels `a`. */
  function KeysWith(marks: map<int, Action>, a: Action): set<int>
  {
    set k | k in marks && marks[k] == a
  }

  /** Keys the first loop counts as updated. */
  function CountedUpdated(cur: map<int, Option<Value>>, prev: map<int, Option<Value>>): set<int>
  {
    KeysWith(FirstPass(cur, prev, prev.Keys), Update)
  }

  /** Keys the first loop counts as deleted. */
  function CountedDeleted(cur: map<int, Option<Value>>, prev: map<int, Option<Value>>): set<int>
  {
    KeysWith(FirstPass(cur, prev, prev.Keys), Delete)
  }

  /** Keys the second loop counts as new. */
  function CountedAdded(cur: map<int, Option<Value>>, prev: map<int, Option<Value>>): set<int>
  {
    KeysWith(SecondPass(cur, prev, cur.Keys), New)
  }

  /** Keys stored with a nil value in the previous snapshot and a value now: the
      first loop counts them as updated, the second one re-labels them new. */
  function Relabelled(cur: map<int, Option<Value>>, prev: map<int, Option<Value>>): set<int>
  {
    set k | k in prev && prev[k] == None && Get(cur, k) != None
  }

  /**
   * `compare_tables(value_hash, value_hash_old)`: the first loop marks every key
   * of the previous snapshot whose value differs from the current one as
   * `:delete` (current nil) or `:update`; the second loop marks every key of the
   * current snapshot whose previous value is nil as `:new`, overwriting an earlier
   * mark. The result is the reference classification; the tallies count what the
   * loops counted.
   */
  method CompareTables(cur: map<int, Option<Value>>, prev: map<int, Option<Value>>)
    returns (changes: map<int, Action>, count: ChangeCount)
    ensures changes == Classification(cur, prev)
    ensures count.updated == |CountedUpdated(cur, prev)|
    ensures count.deleted == |CountedDeleted(cur, prev)|
    ensures count.added == |CountedAdded(cur, prev)|
  {
    var first, updated, deleted := ScanPrevious(cur, prev);
    var added;
    changes, added := ScanCurrent(cur, prev, first);
    count := ChangeCount(updated, added, deleted);
    PassesClassify(cur, prev);
  }

  /** The first loop of `compare_tables`, over the previous snapshot. */
  method ScanPrevious(cur: map<int, Option<Value>>, prev: map<int, Option<Value>>)
    returns (changes: map<int, Action>, updated: nat, deleted: nat)
    ensures changes == FirstPass(cur, prev, prev.Keys)
    ensures updated == |CountedUpdated(cur, prev)| && deleted == |CountedDeleted(cur, prev)|
  {
    changes, updated, deleted := map[], 0, 0;
    var todo := prev.Keys;
    ghost var done: set<int> := {};
    while todo != {}
      invariant done + todo == prev.Keys && done !! todo
      invariant changes == FirstPass(cur, prev, done)
      invariant updated == |KeysWith(changes, Update)| && deleted == |KeysWith(changes, Delete)|
      decreases |todo|
    {
      HasMember(todo);
      var id :| id in todo;
      changes, updated, deleted := VisitPrevious(cur, prev, done, id, changes, updated, deleted);
      MoveKey(done, todo, id);
      todo := todo - {id};
      done := done + {id};
    }
  }

  /** The body of the first loop, for the previous snapshot's key `id`. */
  method VisitPrevious(cur: map<int, Option<Value>>, prev: map<int, Option<Value>>, ghost done: set<int>, id: int,
                       changes: map<int, Action>, updated: nat, deleted: nat)
    returns (changes': map<int, Action>, updated': nat, deleted': nat)
    requires id in prev && id !in done && changes == FirstPass(cur, prev, done)
    requires updated == |KeysWith(changes, Update)| && deleted == |KeysWith(changes, Delete)|
    ensures changes' == FirstPass(cur, prev, done + {id})
    ensures updated' == |KeysWith(changes', Update)| && deleted' == |KeysWith(changes', Delete)|
  {
    FirstPassStep(cur, prev, done, id);
    changes', updated', deleted' := changes, updated, deleted;
    if prev[id] != Get(cur, id) {
      if Get(cur, id) == None {
        Mark(changes, id, Delete, Delete);
        Mark(changes, id, Delete, Update);
        changes' := changes[id := Delete];
        deleted' := deleted + 1;
      } else {
        Mark(changes, id, Update, Delete);
        Mark(changes, id, Update, Update);
        changes' := changes[id := Update];
        updated' := updated + 1;
      }
    }
  }

  /** The second loop of `compare_tables`, over the current snapshot; it extends
      (and overwrites) the marks of the first. */
  method ScanCurrent(cur: map<int, Option<Value>>, prev: map<int, Option<Value>>, first: map<int, Action>)
    returns (changes: map<int, Action>, added: nat)
    ensures changes == first + SecondPass(cur, prev, cur.Keys)
    ensures added == |CountedAdded(cur, prev)|
  {
    changes, added := first, 0;
    var todo := cur.Keys;
    ghost var done: set<int> := {};
    ghost var second: map<int, Action> := map[];
    while todo != {}
      invariant done + todo == cur.Keys && done !! todo
      invariant second == SecondPass(cur, prev, done) && changes == first + second
      invariant added == |KeysWith(second, New)|
      decreases |todo|
    {
      HasMember(todo);
      var id :| id in todo;
      changes, second, added := VisitCurrent(cur, prev, first, done, id, changes, second, added);
      MoveKey(done, todo, id);
      todo := todo - {id};
      done := done + {id};
    }
  }

  /** The body of the second loop, for the current snapshot's key `id`; `second`
      holds the marks this loop made so far. */
  method VisitCurrent(cur: map<int, Option<Value>>, prev: map<int, Option<Value>>, ghost first: map<int, Action>,
                      ghost done: set<int>, id: int, changes: map<int, Action>, ghost second: map<int, Action>, added: nat)
    returns (changes': map<int, Action>, ghost second': map<int, Action>, added': nat)
    requires id in cur && id !in done
    requires second == SecondPass(cur, prev, done) && changes == first + second
    requires added == |KeysWith(second, New)|
    ensures second' == SecondPass(cur, prev, done + {id}) && changes' == first + second'
    ensures added' == |KeysWith(second', New)|
  {
    SecondPassStep(cur, prev, done, id);
    changes', second', added' := changes, second, added;
    if cur[id] != Get(prev, id) {
      if Get(prev, id) == None {
        UnionUpdate(first, second, id, New);
        Mark(second, id, New, New);
        changes' := changes[id := New];
        second' := second[id := New];
        added' := added + 1;
      }
    }
  }

  /** What one iteration of the first loop adds. */
  lemma FirstPassStep(cur: map<int, Option<Value>>, prev: map<int, Option<Value>>, done: set<int>, id: int)
    requires id in prev && id !in done
    ensures id !in FirstPass(cur, prev, done)
    ensures FirstPass(cur, prev, done + {id})
         == if prev[id] != Get(cur, id) then FirstPass(cur, prev, done)[id := if Get(cur, id) == None then Delete else Update]
            else FirstPass(cur, prev, done)
  {
  }

  /** What one iteration of the second loop adds. */
  lemma SecondPassStep(cur: map<int, Option<Value>>, prev: map<int, Option<Value>>, done: set<int>, id: int)
    requires id in cur && id !in done
    ensures id !in SecondPass(cur, prev, done)
    ensures SecondPass(cur, prev, done + {id})
         == if cur[id] != Get(prev, id) && Get(prev, id) == None then SecondPass(cur, prev, done)[id := New]
            else SecondPass(cur, prev, done)
  {
  }

  /** Marking a fresh key `a` adds one to the tally of `a` and leaves the tally
      of any other mark `b` alone. */
  lemma Mark(marks: map<int, Action>, id: int, a: Action, b: Action)
    requires id !in marks
    ensures |KeysWith(marks[id := a], b)| == |KeysWith(marks, b)| + if a == b then 1 else 0
  {
    if a == b {
      assert KeysWith(marks[id := a], b) == KeysWith(marks, b) + {id};
    } else {
      assert KeysWith(marks[id := a], b) == KeysWith(marks, b);
    }
  }

  /** A non-empty set has a member to pick. */
  lemma HasMember(s: set<int>)
    requires s != {}
    ensures exists x :: x in s
  {
    if forall x :: x !in s {
      assert false;
    }
  }

  /** Moving one key from the keys still to visit to the keys visited. */
  lemma MoveKey(done: set<int>, todo: set<int>, id: int)
    requires id in todo && done !! todo
    ensures (done + {id}) + (todo - {id}) == done + todo && (done + {id}) !! (todo - {id})
  {
  }

  lemma UnionUpdate(a: map<int, Action>, b: map<int, Action>, k: int, v: Action)
    ensures (a + b)[k := v] == a + b[k := v]
  {
  }

  /** Together the two loops compute the reference classification. */
  lemma PassesClassify(cur: map<int, Option<Value>>, prev: map<int, Option<Value>>)
    ensures FirstPass(cur, prev, prev.Keys) + SecondPass(cur, prev, cur.Keys) == Classification(cur, prev)
  {
    var both := FirstPass(cur, prev, prev.Keys) + SecondPass(cur, prev, cur.Keys);
    var spec := Classification(cur, prev);
    forall k ensures k in both <==> k in spec {
    }
    assert both.Keys == spec.Keys;
    forall k | k in spec ensures both[k] == spec[k] {
    }
  }

  // ---------------------------------------------------------------------------
  // Properties
  // ---------------------------------------------------------------------------

  /** Comparing a snapshot with itself reports no change. */
  lemma CompareWithItself(m: map<int, Option<Value>>)
    ensures Classification(m, m) == map[]
  {
  }

  /**
   * The three logged tallies add up to the number of reported changes, plus the
   * keys counted twice: those stored with nil in the previous snapshot and a
   * value now, which are tallied both as updated and as new but reported new.
   */
  lemma CountsAddUp(cur: map<int, Option<Value>>, prev: map<int, Option<Value>>)
    ensures |CountedUpdated(cur, prev)| + |CountedAdded(cur, prev)| + |CountedDeleted(cur, prev)|
         == |Classification(cur, prev)| + |Relabelled(cur, prev)|
  {
    var r := Classification(cur, prev);
    MarksPartition(r);
    UpdatedSplit(cur, prev);
    AddedAndDeleted(cur, prev);
  }

  /** Every marked key carries exactly one of the three marks. */
  lemma MarksPartition(r: map<int, Action>)
    ensures |r| == |KeysWith(r, Update)| + |KeysWith(r, New)| + |KeysWith(r, Delete)|
  {
    var upd, add, del := KeysWith(r, Update), KeysWith(r, New), KeysWith(r, Delete);
    forall k | k in r ensures k in upd + add + del {
      assert r[k] == Update || r[k] == New || r[k] == Delete;
    }
    assert r.Keys == upd + add + del;
    DisjointUnionSize(upd, add);
    DisjointUnionSize(upd + add, del);
  }

  /** The first loop's updated tally holds the keys reported updated and the re-labelled ones. */
  lemma UpdatedSplit(cur: map<int, Option<Value>>, prev: map<int, Option<Value>>)
    ensures |CountedUpdated(cur, prev)| == |KeysWith(Classification(cur, prev), Update)| + |Relabelled(cur, prev)|
  {
    var upd, rel := KeysWith(Classification(cur, prev), Update), Relabelled(cur, prev);
    forall k ensures k in CountedUpdated(cur, prev) <==> k in upd + rel {
      ClassifiedAt(cur, prev, k);
    }
    assert CountedUpdated(cur, prev) == upd + rel;
    DisjointUnionSize(upd, rel);
  }

  /** The new and deleted tallies are exactly the keys reported new and deleted. */
  lemma AddedAndDeleted(cur: map<int, Option<Value>>, prev: map<int, Option<Value>>)
    ensures CountedAdded(cur, prev) == KeysWith(Classification(cur, prev), New)
    ensures CountedDeleted(cur, prev) == KeysWith(Classification(cur, prev), Delete)
  {
    var add, del := KeysWith(Classification(cur, prev), New), KeysWith(Classification(cur, prev), Delete);
    forall k ensures k in CountedAdded(cur, prev) <==> k in add {
      ClassifiedAt(cur, prev, k);
    }
    forall k ensures k in CountedDeleted(cur, prev) <==> k in del {
      ClassifiedAt(cur, prev, k);
    }
  }

  /** The classification of one key, in terms of the two loops' tests. */
  lemma ClassifiedAt(cur: map<int, Option<Value>>, prev: map<int, Option<Value>>, k: int)
    ensures k in CountedUpdated(cur, prev) <==> k in prev && prev[k] != Get(cur, k) && Get(cur, k) != None
    ensures k in CountedAdded(cur, prev) <==> k in cur && cur[k] != Get(prev, k) && Get(prev, k) == None
    ensures k in CountedDeleted(cur, prev) <==> k in prev && prev[k] != Get(cur, k) && Get(cur, k) == None
    ensures k in Relabelled(cur, prev) <==> k in prev && prev[k] == None && Get(cur, k) != None
    ensures var r := Classification(cur, prev);
      && (k in r <==> Get(cur, k) != Get(prev, k))
      && (k in r ==> r[k] == if Get(prev, k) == None then New else if Get(cur, k) == None then Delete else Update)
  {
  }

  lemma DisjointUnionSize(a: set<int>, b: set<int>)
    requires a !! b
    ensures |a + b| == |a| + |b|
  {
  }

  /** When the previous snapshot stores no nil value (fingerprints, names read from
      the database), the tallies add up exactly to the reported changes. */
  lemma CountsAddUpWithoutNil(cur: map<int, Option<Value>>, prev: map<int, Option<Value>>)
    requires NoNil(prev)
    ensures |CountedUpdated(cur, prev)| + |CountedAdded(cur, prev)| + |CountedDeleted(cur, prev)|
         == |Classification(cur, prev)|
  {
    CountsAddUp(cur, prev);
    assert Relabelled(cur, prev) == {};
  }
}
