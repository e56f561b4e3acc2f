/** Three-way rollback of a JSON document: undo one operation without erasing
    what a concurrent writer did in the meantime. */
module StateTransaction {

  import opened Wrappers

  /** A JSON value. Numbers and strings are only ever compared for equality. */
  datatype Json =
    | Null
    | Boolean(b: bool)
    | Number(n: int)
    | Text(s: string)
    | Array(items: seq<Json>)
    | Object(fields: Fields)

  type Fields = map<string, Json>

  /** A missing key reads as `Null`. */
  function Get(fields: Fields, key: string): Json {
    if key in fields then fields[key] else Null
  }

  /** The operation added `key` and nobody touched it since. */
  predicate Withdrawn(previous: Fields, attempted: Fields, current: Fields, key: string) {
    && key !in previous
    && Get(previous, key) != Get(attempted, key)
    && Get(current, key) == Get(attempted, key)
  }

  function RolledBack(previous: Json, attempted: Json, current: Json): Json
    decreases current
  {
    if current == attempted then previous
    else if previous.Object? && attempted.Object? && current.Object? then
      Object(map key | key in current.fields
                       && !Withdrawn(previous.fields, attempted.fields, current.fields, key)
             :: Entry(previous.fields, attempted.fields, current, key))
    else current
  }

  /** What the merge stores under a key that stays. */
  function Entry(previous: Fields, attempted: Fields, current: Json, key: string): Json
    requires current.Object? && key in current.fields
    decreases current, 0
  {
    var before := Get(previous, key);
    var tried := Get(attempted, key);
    if before == tried then current.fields[key] else RolledBack(before, tried, current.fields[key])
  }

  /** The merge after the keys in `done` have been visited. */
  ghost function Merged(previous: Fields, attempted: Fields, current: Json, done: set<string>): Fields
    requires current.Object?
  {
    map key | key in current.fields
              && !(key in done && Withdrawn(previous, attempted, current.fields, key))
    :: if key in done then Entry(previous, attempted, current, key) else current.fields[key]
  }

  /** One more visited key changes the merge at that key alone. */
  lemma MergedStep(previous: Fields, attempted: Fields, current: Json, done: set<string>, key: string)
    requires current.Object?
    ensures var merged := Merged(previous, attempted, current, done);
            var before, tried := Get(previous, key), Get(attempted, key);
            Merged(previous, attempted, current, done + {key}) ==
            if before == tried then merged
            else if key !in previous && Get(current.fields, key) == tried then merged - {key}
            else if key in current.fields then merged[key := RolledBack(before, tried, current.fields[key])]
            else merged
  {
  }

  lemma MergedAll(previous: Fields, attempted: Fields, current: Json)
    requires current.Object? && current != Object(attempted)
    ensures Object(Merged(previous, attempted, current, previous.Keys + attempted.Keys))
            == RolledBack(Object(previous), Object(attempted), current)
  {
    assert Merged(previous, attempted, current, previous.Keys + attempted.Keys)
        == RolledBack(Object(previous), Object(attempted), current).fields;
  }

  /** The rollback as it runs: every key of `previous`, then every key of
      `attempted`, edits a copy of `current` in place; a key of both is visited twice. */
  method Rollback(previous: Json, attempted: Json, current: Json) returns (result: Json)
    ensures result == RolledBack(previous, attempted, current)
    decreases current, 1
  {
    if current == attempted {
      result := previous;
    } else if previous.Object? && attempted.Object? && current.Object? {
      var merged := MergeKeys(previous.fields, attempted.fields, current);
      MergedAll(previous.fields, attempted.fields, current);
      result := Object(merged);
    } else {
      // Whatever is not an object on all three sides is left as the other writer made it.
      result := current;
    }
  }

  method MergeKeys(previous: Fields, attempted: Fields, current: Json) returns (merged: Fields)
    requires current.Object?
    ensures merged == Merged(previous, attempted, current, previous.Keys + attempted.Keys)
    decreases current, 0, 1
  {
    merged := current.fields;
    var firstKeys, thenKeys := previous.Keys, attempted.Keys;
    ghost var done := {};
    while firstKeys != {} || thenKeys != {}
      invariant done + firstKeys + thenKeys == previous.Keys + attempted.Keys
      invariant merged == Merged(previous, attempted, current, done)
      decreases firstKeys, thenKeys
    {
      var key: string;
      if firstKeys != {} {
        key :| key in firstKeys;
        firstKeys := firstKeys - {key};
      } else {
        key :| key in thenKeys;
        thenKeys := thenKeys - {key};
      }
      merged := MergeKey(previous, attempted, current, done, merged, key);
      done := done + {key};
    }
  }

  method MergeKey(previous: Fields, attempted: Fields, current: Json, ghost done: set<string>,
                  merged: Fields, key: string) returns (next: Fields)
    requires current.Object?
    requires merged == Merged(previous, attempted, current, done)
    ensures next == Merged(previous, attempted, current, done + {key})
    decreases current, 0, 0
  {
    MergedStep(previous, attempted, current, done, key);
    next := merged;
    var before, tried, now := Get(previous, key), Get(attempted, key), Get(current.fields, key);
    if before == tried { return; }
    if key !in previous && now == tried {
      next := merged - {key};
    } else if key in current.fields {
      var kept := Rollback(before, tried, now);
      next := merged[key := kept];
    }
  }

  /** Undoing an operation that changed nothing keeps whatever is there now. */
  lemma RollbackOfNoChange(state: Json, current: Json)
    ensures RolledBack(state, state, current) == current
  {
  }

  /** The attempted value survives only when the operation had changed nothing
      and nobody else changed anything either. */
  lemma {:induction false} AttemptedSurvives(previous: Json, attempted: Json, current: Json)
    ensures RolledBack(previous, attempted, current) == attempted
            <==> (previous == attempted && current == attempted)
    decreases current
  {
    var result := RolledBack(previous, attempted, current);
    if current != attempted && previous.Object? && attempted.Object? && current.Object? {
      var p, a, c := previous.fields, attempted.fields, current.fields;
      assert c.Keys == a.Keys && (forall k | k in c :: c[k] == a[k]) ==> c == a;
      var key :| key in c.Keys + a.Keys && (key !in c || key !in a || c[key] != a[key]);
      if key in c && key in a {
        AttemptedSurvives(Get(p, key), a[key], c[key]);
        assert key in result.fields ==> result.fields[key] == Entry(p, a, current, key);
      } else {
        assert key in result.fields <==> key in c;
      }
    }
  }

  /** A state that was already rolled back is left alone by a second rollback. */
  lemma {:induction false} PreviousIsAFixpoint(previous: Json, attempted: Json)
    ensures RolledBack(previous, attempted, previous) == previous
    decreases previous
  {
    if previous != attempted && previous.Object? && attempted.Object? {
      forall key | key in previous.fields
        ensures Entry(previous.fields, attempted.fields, previous, key) == previous.fields[key]
      {
        PreviousIsAFixpoint(previous.fields[key], Get(attempted.fields, key));
      }
      assert RolledBack(previous, attempted, previous).fields == previous.fields;
    }
  }

  lemma {:induction false} RollbackIsIdempotent(previous: Json, attempted: Json, current: Json)
    ensures var once := RolledBack(previous, attempted, current);
            RolledBack(previous, attempted, once) == once
    decreases current
  {
    var once := RolledBack(previous, attempted, current);
    AttemptedSurvives(previous, attempted, current);
    if current == attempted {
      PreviousIsAFixpoint(previous, attempted);
    } else if previous.Object? && attempted.Object? && current.Object? {
      var p, a, c := previous.fields, attempted.fields, current.fields;
      forall key | key in once.fields
        ensures !Withdrawn(p, a, once.fields, key)
        ensures Entry(p, a, once, key) == once.fields[key]
      {
        RollbackIsIdempotent(Get(p, key), Get(a, key), c[key]);
        AttemptedSurvives(Get(p, key), Get(a, key), c[key]);
      }
      assert RolledBack(previous, attempted, once).fields == once.fields;
    }
  }

  /** The value at the end of a path of object keys. */
  function At(value: Json, path: seq<string>): Option<Json> {
    if path == [] then Some(value)
    else if value.Object? && path[0] in value.fields then At(value.fields[path[0]], path[1..])
    else None
  }

  /** Wherever the operation left the document alone, the current value stays. */
  lemma {:induction false} UntouchedPathsKeepCurrent(previous: Json, attempted: Json, current: Json, path: seq<string>)
    requires At(previous, path) == At(attempted, path)
    ensures At(RolledBack(previous, attempted, current), path) == At(current, path)
    decreases current
  {
    if path != [] && current != attempted && previous.Object? && attempted.Object? && current.Object? {
      var key := path[0];
      if key in current.fields {
        var before, wanted := Get(previous.fields, key), Get(attempted.fields, key);
        UntouchedPathsKeepCurrent(before, wanted, current.fields[key], path[1..]);
      }
    } else if path == [] {
      RollbackOfNoChange(previous, current);
    }
  }

  /** What a concurrent writer put at a path, other than an object, is kept at any depth, whatever the operation
      had put or found there. */
  lemma {:induction false} ConflictsKeepCurrent(previous: Json, attempted: Json, current: Json, path: seq<string>)
    requires At(current, path).Some? && !At(current, path).value.Object? && At(current, path).value != Null
    requires At(attempted, path) != At(current, path)
    ensures At(RolledBack(previous, attempted, current), path) == At(current, path)
    decreases current
  {
    if path != [] && previous.Object? && attempted.Object? {
      var p, a, c := previous.fields, attempted.fields, current.fields;
      if Get(p, path[0]) != Get(a, path[0]) {
        ValueIsNotWithin(path[1..]);
        ConflictsKeepCurrent(Get(p, path[0]), Get(a, path[0]), c[path[0]], path[1..]);
      }
    }
  }

  lemma ValueIsNotWithin(path: seq<string>)
    ensures At(Null, path).Some? ==> At(Null, path).value == Null
  {
  }

  /** Where nobody touched what the operation put, the previous value comes back, at any depth. */
  lemma {:induction false} UncontestedPathsAreRestored(previous: Json, attempted: Json, current: Json,
                                                       path: seq<string>)
    requires At(previous, path).Some? && At(attempted, path).Some? && At(current, path) == At(attempted, path)
    ensures At(RolledBack(previous, attempted, current), path) == At(previous, path)
    decreases current
  {
    if path != [] && current != attempted {
      UncontestedPathsAreRestored(previous.fields[path[0]], attempted.fields[path[0]], current.fields[path[0]],
                                  path[1..]);
    }
  }

  /** A value that the operation added and nobody touched goes again, at any depth. */
  lemma {:induction false} AdditionsAreWithdrawn(previous: Json, attempted: Json, current: Json, path: seq<string>)
    requires path != [] && At(previous, path[..|path| - 1]).Some? && At(previous, path[..|path| - 1]).value.Object?
    requires At(previous, path).None? && At(attempted, path).Some? && At(attempted, path).value != Null
    requires At(current, path) == At(attempted, path)
    ensures At(RolledBack(previous, attempted, current), path).None?
    decreases current
  {
    if |path| > 1 && current != attempted {
      var rest := path[1..];
      assert path[..|path| - 1][1..] == rest[..|rest| - 1];
      AdditionsAreWithdrawn(previous.fields[path[0]], attempted.fields[path[0]], current.fields[path[0]], rest);
    }
  }

  // ---------------------------------------------------------------- edits

  /** A change to one place of a document: put a value there, drop it, or edit
      the object found there key by key. */
  datatype Edit = Put(value: Json) | Drop | Within(edits: map<string, Edit>)

  predicate Stays(edits: map<string, Edit>, fields: Fields, key: string) {
    if key in edits then edits[key].Put? || (edits[key].Within? && key in fields) else key in fields
  }

  function Apply(edit: Edit, value: Json): Json
    decreases edit
  {
    match edit
    case Put(v) => v
    case Drop => value
    case Within(edits) =>
      if value.Object? then
        Object(map key | key in value.fields.Keys + edits.Keys && Stays(edits, value.fields, key)
               :: if key in edits then Apply(edits[key], Get(value.fields, key)) else value.fields[key])
      else value
  }

  /** No place written by one edit lies at, above or below a place written by the other. */
  predicate Disjoint(left: Edit, right: Edit)
    decreases left
  {
    && left.Within?
    && right.Within?
    && forall key | key in left.edits && key in right.edits :: Disjoint(left.edits[key], right.edits[key])
  }

  /** When the rollback can restore `previous` below the concurrent edit: either
      nobody else changed this object, or the operation dropped no key and added
      no key with the value `Null`, here and in every object it edited below. */
  predicate Restorable(previous: Json, operation: Edit, concurrent: Edit)
    requires Disjoint(operation, concurrent)
    decreases operation
  {
    var attempted := Apply(operation, previous);
    || Apply(concurrent, attempted) == attempted
    || !previous.Object?
    || forall key | key in operation.edits ::
         match operation.edits[key]
         case Put(value) => key in previous.fields || value != Null
         case Drop => key !in previous.fields
         case Within(_) =>
           key in previous.fields && key in concurrent.edits ==>
             Restorable(previous.fields[key], operation.edits[key], concurrent.edits[key])
  }

  /** An operation that drops nothing and adds only non-null keys, at any depth. */
  predicate OnlyChangesAndAdds(previous: Json, operation: Edit)
    decreases operation
  {
    && operation.Within?
    && (previous.Object? ==> forall key | key in operation.edits ::
          match operation.edits[key]
          case Put(value) => key in previous.fields || value != Null
          case Drop => false
          case Within(_) => key in previous.fields ==> OnlyChangesAndAdds(previous.fields[key], operation.edits[key]))
  }

  /** A disjoint edit that does nothing after the operation does nothing before it. */
  lemma {:induction false} IdleAfterIsIdleBefore(previous: Json, operation: Edit, concurrent: Edit)
    requires Disjoint(operation, concurrent)
    requires Apply(concurrent, Apply(operation, previous)) == Apply(operation, previous)
    ensures Apply(concurrent, previous) == previous
    decreases operation
  {
    if previous.Object? {
      var attempted := Apply(operation, previous);
      var p, a, once := previous.fields, attempted.fields, Apply(concurrent, previous).fields;
      assert Apply(concurrent, attempted).fields == a;
      forall key | key in p.Keys + once.Keys
        ensures key in p && key in once && once[key] == p[key]
      {
        assert key in Apply(concurrent, attempted).fields <==> key in a;
        if key in operation.edits && key in concurrent.edits {
          assert Disjoint(operation.edits[key], concurrent.edits[key]);
          assert key in a <==> key in p;
          if key in p {
            IdleAfterIsIdleBefore(p[key], operation.edits[key], concurrent.edits[key]);
          }
        } else if key in concurrent.edits {
          assert key in a <==> key in p;
        }
      }
      assert once == p;
    }
  }

  /** What the rollback stores under a key the operation edited, against what the
      concurrent edit alone would store there. */
  predicate RestoredAt(previous: Json, operation: Edit, concurrent: Edit, key: string)
    requires Disjoint(operation, concurrent) && previous.Object?
  {
    var attempted := Apply(operation, previous);
    var current := Apply(concurrent, attempted);
    var wanted := Apply(concurrent, previous).fields;
    var stays := key in current.fields && !Withdrawn(previous.fields, attempted.fields, current.fields, key);
    && (stays <==> key in wanted)
    && (stays ==> Entry(previous.fields, attempted.fields, current, key) == wanted[key])
  }

  lemma RestoredElsewhere(previous: Json, operation: Edit, concurrent: Edit, key: string)
    requires Disjoint(operation, concurrent) && previous.Object?
    requires key !in operation.edits
    ensures RestoredAt(previous, operation, concurrent, key)
  {
  }

  lemma RestoredWhereAlone(previous: Json, operation: Edit, concurrent: Edit, key: string)
    requires Disjoint(operation, concurrent) && previous.Object?
    requires key in operation.edits && key !in concurrent.edits
    ensures RestoredAt(previous, operation, concurrent, key)
            <==> match operation.edits[key]
                 case Put(value) => key in previous.fields || value != Null
                 case Drop => key !in previous.fields
                 case Within(_) => true
  {
    var attempted := Apply(operation, previous);
    var p, a := previous.fields, attempted.fields;
    var current := Apply(concurrent, attempted);
    var wanted := Apply(concurrent, previous).fields;
    assert key in wanted <==> key in p;
    assert key in p ==> wanted[key] == p[key];
    assert key in current.fields <==> key in a;
    assert key in a ==> current.fields[key] == a[key];
    if key in p && key in a {
      assert Entry(p, a, current, key) == p[key];
    }
    match operation.edits[key]
    case Put(value) =>
      assert key in a && a[key] == Apply(operation.edits[key], Get(p, key));
    case Drop => assert key !in a;
    case Within(_) => assert key in a <==> key in p;
  }

  /** Rolling back commutes with a disjoint concurrent edit exactly when the
      operation is restorable: the result is then the concurrent edit applied to
      the previous state. */
  lemma {:induction false} RollbackCommutesIff(previous: Json, operation: Edit, concurrent: Edit)
    requires Disjoint(operation, concurrent)
    ensures var attempted := Apply(operation, previous);
            var current := Apply(concurrent, attempted);
            RolledBack(previous, attempted, current) == Apply(concurrent, previous)
            <==> Restorable(previous, operation, concurrent)
    decreases operation
  {
    var attempted := Apply(operation, previous);
    var current := Apply(concurrent, attempted);
    var result := RolledBack(previous, attempted, current);
    var wanted := Apply(concurrent, previous);
    if current == attempted {
      IdleAfterIsIdleBefore(previous, operation, concurrent);
    } else if previous.Object? {
      forall key
        ensures RestoredAt(previous, operation, concurrent, key)
                <==> (key in operation.edits ==>
                        match operation.edits[key]
                        case Put(value) => key in previous.fields || value != Null
                        case Drop => key !in previous.fields
                        case Within(_) =>
                          key in previous.fields && key in concurrent.edits ==>
                            Restorable(previous.fields[key], operation.edits[key], concurrent.edits[key]))
      {
        if key !in operation.edits {
          RestoredElsewhere(previous, operation, concurrent, key);
        } else if key !in concurrent.edits {
          RestoredWhereAlone(previous, operation, concurrent, key);
        } else {
          RestoredBelow(previous, operation, concurrent, key);
        }
      }
      assert result == wanted <==> forall key :: RestoredAt(previous, operation, concurrent, key) by {
        if result == wanted {
          forall key ensures RestoredAt(previous, operation, concurrent, key) {
            assert key in result.fields <==> key in wanted.fields;
          }
        }
        if forall key :: RestoredAt(previous, operation, concurrent, key) {
          forall key ensures key in result.fields <==> key in wanted.fields
                     ensures key in result.fields ==> result.fields[key] == wanted.fields[key] {
            assert RestoredAt(previous, operation, concurrent, key);
          }
          assert result.fields == wanted.fields;
        }
      }
    }
  }

  lemma {:induction false} RestoredBelow(previous: Json, operation: Edit, concurrent: Edit, key: string)
    requires Disjoint(operation, concurrent) && previous.Object?
    requires key in operation.edits && key in concurrent.edits
    ensures RestoredAt(previous, operation, concurrent, key)
            <==> (key in previous.fields
              ==> Restorable(previous.fields[key], operation.edits[key], concurrent.edits[key]))
    decreases operation, 0
  {
    assert Disjoint(operation.edits[key], concurrent.edits[key]);
    if key in previous.fields {
      RollbackCommutesIff(previous.fields[key], operation.edits[key], concurrent.edits[key]);
      RollbackOfNoChange(previous.fields[key], Apply(concurrent.edits[key], previous.fields[key]));
    }
  }

  /** The usual case, at any nesting depth and whatever the concurrent writer did
      elsewhere: only existing keys changed, only non-null keys added. */
  lemma {:induction false} RollbackCommutes(previous: Json, operation: Edit, concurrent: Edit)
    requires Disjoint(operation, concurrent)
    requires OnlyChangesAndAdds(previous, operation)
    ensures var attempted := Apply(operation, previous);
            RolledBack(previous, attempted, Apply(concurrent, attempted)) == Apply(concurrent, previous)
  {
    PlainOperationIsRestorable(previous, operation, concurrent);
    RollbackCommutesIff(previous, operation, concurrent);
  }

  lemma {:induction false} PlainOperationIsRestorable(previous: Json, operation: Edit, concurrent: Edit)
    requires Disjoint(operation, concurrent)
    requires OnlyChangesAndAdds(previous, operation)
    ensures Restorable(previous, operation, concurrent)
    decreases operation
  {
    if previous.Object? {
      forall key | key in operation.edits && key in concurrent.edits && key in previous.fields
        ensures Restorable(previous.fields[key], operation.edits[key], concurrent.edits[key])
      {
        PlainOperationIsRestorable(previous.fields[key], operation.edits[key], concurrent.edits[key]);
      }
    }
  }

  // ------------------------------------------------------- three documents

  predicate SameAt(left: Fields, right: Fields, key: string) {
    (key in left <==> key in right) && (key in left && key in right ==> left[key] == right[key])
  }

  /** The edit that turns one document into another: it writes only where they differ, as deep as both
      are objects. */
  function Diff(from: Json, to: Json): Edit
    decreases from
  {
    if from.Object? && to.Object? then
      Within(map key | key in from.fields.Keys + to.fields.Keys && !SameAt(from.fields, to.fields, key)
             :: if key !in to.fields then Drop
                else if key in from.fields then Diff(from.fields[key], to.fields[key])
                else Put(to.fields[key]))
    else Put(to)
  }

  lemma {:induction false} DiffApplies(from: Json, to: Json)
    ensures Apply(Diff(from, to), from) == to
    decreases from
  {
    if from.Object? && to.Object? {
      var edits, result := Diff(from, to).edits, Apply(Diff(from, to), from).fields;
      forall key ensures SameAt(result, to.fields, key) {
        if key in edits && key in to.fields {
          if key in from.fields {
            DiffApplies(from.fields[key], to.fields[key]);
          }
          assert result[key] == Apply(edits[key], Get(from.fields, key));
        } else if key in to.fields {
          assert SameAt(from.fields, to.fields, key) && result[key] == from.fields[key];
        }
      }
      assert forall key | key in to.fields :: SameAt(result, to.fields, key);
      assert forall key | key in result :: SameAt(result, to.fields, key);
      assert result == to.fields;
    }
  }

  /** Below one key of two objects, nothing was dropped, no `Null` was added, and what was changed on all
      sides is reversible. */
  predicate ReversibleAt(previous: Json, attempted: Json, current: Json, key: string)
    requires previous.Object? && attempted.Object? && current.Object?
    decreases previous, 0
  {
    if key !in attempted.fields then key !in previous.fields
    else if key !in previous.fields then attempted.fields[key] != Null
    else key in current.fields ==> Reversible(previous.fields[key], attempted.fields[key], current.fields[key])
  }

  /** In every object that somebody else changed, the operation dropped no key and added no key with the
      value `Null`. */
  predicate Reversible(previous: Json, attempted: Json, current: Json)
    decreases previous, 1
  {
    || current == attempted
    || !previous.Object? || !attempted.Object? || !current.Object?
    || forall key | key in previous.fields.Keys + attempted.fields.Keys ::
         ReversibleAt(previous, attempted, current, key)
  }

  lemma {:induction false} NoChangeIsReversible(state: Json, current: Json)
    ensures Reversible(state, state, current)
    decreases state
  {
    if state.Object? && current.Object? {
      forall key | key in state.fields ensures ReversibleAt(state, state, current, key) {
        if key in current.fields {
          NoChangeIsReversible(state.fields[key], current.fields[key]);
        }
      }
    }
  }

  /** What `Restorable` asks of one key of the operation. */
  predicate RestorableAt(previous: Fields, operation: Edit, concurrent: Edit, key: string)
    requires Disjoint(operation, concurrent) && key in operation.edits
  {
    match operation.edits[key]
    case Put(value) => key in previous || value != Null
    case Drop => key !in previous
    case Within(_) =>
      key in previous && key in concurrent.edits ==>
        Restorable(previous[key], operation.edits[key], concurrent.edits[key])
  }

  lemma {:induction false} RestorableIff(previous: Json, attempted: Json, current: Json)
    requires Disjoint(Diff(previous, attempted), Diff(attempted, current))
    ensures Restorable(previous, Diff(previous, attempted), Diff(attempted, current))
            <==> Reversible(previous, attempted, current)
    decreases previous, 1
  {
    DiffApplies(previous, attempted);
    DiffApplies(attempted, current);
    var operation, concurrent := Diff(previous, attempted), Diff(attempted, current);
    var p, a := previous.fields, attempted.fields;
    forall key | key in p.Keys + a.Keys
      ensures ReversibleAt(previous, attempted, current, key)
              <==> (key in operation.edits ==> RestorableAt(p, operation, concurrent, key))
    {
      RestorableAtIff(previous, attempted, current, key);
    }
    assert Restorable(previous, operation, concurrent) <==>
           current == attempted || forall key | key in operation.edits :: RestorableAt(p, operation, concurrent, key);
  }

  lemma {:induction false} RestorableAtIff(previous: Json, attempted: Json, current: Json, key: string)
    requires previous.Object? && attempted.Object? && current.Object?
    requires Disjoint(Diff(previous, attempted), Diff(attempted, current))
    requires key in previous.fields.Keys + attempted.fields.Keys
    ensures ReversibleAt(previous, attempted, current, key) <==>
            (key in Diff(previous, attempted).edits ==>
               RestorableAt(previous.fields, Diff(previous, attempted), Diff(attempted, current), key))
    decreases previous, 0
  {
    var p, a, c := previous.fields, attempted.fields, current.fields;
    var operation, concurrent := Diff(previous, attempted), Diff(attempted, current);
    if key in p && key in a {
      if key in operation.edits && key in concurrent.edits {
        assert Disjoint(operation.edits[key], concurrent.edits[key]);
        RestorableIff(p[key], a[key], c[key]);
      } else if p[key] == a[key] && key in c {
        NoChangeIsReversible(p[key], c[key]);
      }
    }
  }

  /**
   * Of any three objects, the rollback gives the concurrent change applied to the previous state exactly
   * when the operation is reversible, provided the two changes touch no common place.
   */
  lemma RollbackOfDocumentsIff(previous: Json, attempted: Json, current: Json)
    requires previous.Object? && attempted.Object? && current.Object?
    requires Disjoint(Diff(previous, attempted), Diff(attempted, current))
    ensures RolledBack(previous, attempted, current) == Apply(Diff(attempted, current), previous)
            <==> Reversible(previous, attempted, current)
  {
    DiffApplies(previous, attempted);
    DiffApplies(attempted, current);
    RollbackCommutesIff(previous, Diff(previous, attempted), Diff(attempted, current));
    RestorableIff(previous, attempted, current);
  }

  /** A dropped key is not restored once anybody changed anything beside it. */
  lemma DroppedKeyIsNotRestored()
    ensures var previous := Object(map["a" := Number(1)]);
            var attempted := Object(map[]);
            var current := Object(map["b" := Number(2)]);
            && RolledBack(previous, attempted, current) == current
            && RolledBack(previous, attempted, attempted) == previous
  {
    var previous := Object(map["a" := Number(1)]);
    var current := Object(map["b" := Number(2)]);
    assert !Withdrawn(previous.fields, map[], current.fields, "b");
    assert "b" !in previous.fields;
    assert RolledBack(previous, Object(map[]), current).fields == current.fields;
  }

  /** An added key whose value is null is not withdrawn: missing and null look alike. */
  lemma NullAdditionIsNotWithdrawn()
    ensures var previous := Object(map[]);
            var attempted := Object(map["a" := Null]);
            var current := Object(map["a" := Null, "b" := Number(2)]);
            RolledBack(previous, attempted, current) == current
  {
    var previous := Object(map[]);
    var attempted := Object(map["a" := Null]);
    var current := Object(map["a" := Null, "b" := Number(2)]);
    assert current.fields != attempted.fields by {
      assert "b" in current.fields && "b" !in attempted.fields;
    }
    assert RolledBack(previous, attempted, current).fields == current.fields;
  }
}
