/**
 The key/value filter behind every BuildVars overload, and the "try a getter,
 fall back to the default" helper (SharpBrakeCore/Extensions.cs).
 */
module Extensions {
  import opened Common
  import opened Serialization

  /**
   One key of a keyed collection (NameValueCollection, HttpCookieCollection,
   HttpSessionState), in the collection's key order, paired with what the
   collection's indexer returns for that key.
   */
  datatype Entry<T> = Entry(key: Option<string>, item: T)

  /** A NameValueCollection: AllKeys in order, each with its (possibly null) value. */
  type NameValueCollection = seq<Entry<Option<string>>>

  /** An entry becomes a var when neither its key nor its value is null or empty. */
  predicate Keeps<T>(e: Entry<T>, valueOf: T -> Option<string>)
  {
    !IsNullOrEmpty(e.key) && !IsNullOrEmpty(valueOf(e.item))
  }

  /** The var a kept entry becomes. */
  function VarOf<T>(e: Entry<T>, valueOf: T -> Option<string>): Var
    requires Keeps(e, valueOf)
  {
    Var(e.key.value, valueOf(e.item).value)
  }

  /**
   The query every BuildVars overload runs: for each key that is not null or
   empty, take the value valueOf gives for its item, skip it when that value is
   null or empty, and otherwise emit Var(key, value), in key order.
   */
  function SelectVars<T>(entries: seq<Entry<T>>, valueOf: T -> Option<string>): (r: seq<Var>)
    ensures |r| <= |entries|
    ensures forall i :: 0 <= i < |r| ==> r[i].key != "" && r[i].value != ""
  {
    if |entries| == 0 then []
    else
      var e := entries[0];
      (if Keeps(e, valueOf) then [VarOf(e, valueOf)] else []) + SelectVars(entries[1..], valueOf)
  }

  /** Filtering distributes over concatenation: each part is filtered on its own, in order. */
  lemma {:induction false} SelectVarsAppend<T>(a: seq<Entry<T>>, b: seq<Entry<T>>, valueOf: T -> Option<string>)
    ensures SelectVars(a + b, valueOf) == SelectVars(a, valueOf) + SelectVars(b, valueOf)
  {
    if |a| == 0 {
      assert a + b == b;
    } else {
      assert (a + b)[1..] == a[1..] + b;
      SelectVarsAppend(a[1..], b, valueOf);
    }
  }

  /** The positions of the kept entries, in increasing order. */
  function KeptPositions<T>(entries: seq<Entry<T>>, valueOf: T -> Option<string>): seq<nat>
  {
    if |entries| == 0 then []
    else
      var rest := KeptPositions(entries[1..], valueOf);
      (if Keeps(entries[0], valueOf) then [0] else []) + seq(|rest|, j requires 0 <= j < |rest| => rest[j] + 1)
  }

  lemma {:induction false} KeptPositionsMatch<T>(entries: seq<Entry<T>>, valueOf: T -> Option<string>)
    ensures |KeptPositions(entries, valueOf)| == |SelectVars(entries, valueOf)|
    ensures forall j :: 0 <= j < |KeptPositions(entries, valueOf)| ==>
      var p := KeptPositions(entries, valueOf)[j];
      p < |entries| && Keeps(entries[p], valueOf) && SelectVars(entries, valueOf)[j] == VarOf(entries[p], valueOf)
  {
    if |entries| > 0 {
      var idx := KeptPositions(entries, valueOf);
      var r := SelectVars(entries, valueOf);
      var rest := KeptPositions(entries[1..], valueOf);
      var tail := SelectVars(entries[1..], valueOf);
      KeptPositionsMatch(entries[1..], valueOf);
      var h := if Keeps(entries[0], valueOf) then 1 else 0;
      assert r == (if h == 1 then [VarOf(entries[0], valueOf)] else []) + tail;
      assert |idx| == h + |rest|;
      forall j | 0 <= j < |idx|
        ensures idx[j] < |entries| && Keeps(entries[idx[j]], valueOf) && r[j] == VarOf(entries[idx[j]], valueOf)
      {
        if j < h {
          assert idx[j] == 0 && r[j] == VarOf(entries[0], valueOf);
        } else {
          assert idx[j] == rest[j - h] + 1;
          assert entries[idx[j]] == entries[1..][rest[j - h]];
          assert r[j] == tail[j - h];
        }
      }
    }
  }

  lemma {:induction false} KeptPositionsIncrease<T>(entries: seq<Entry<T>>, valueOf: T -> Option<string>)
    ensures forall j, k :: 0 <= j < k < |KeptPositions(entries, valueOf)| ==>
      KeptPositions(entries, valueOf)[j] < KeptPositions(entries, valueOf)[k]
  {
    if |entries| > 0 {
      var idx := KeptPositions(entries, valueOf);
      var rest := KeptPositions(entries[1..], valueOf);
      KeptPositionsIncrease(entries[1..], valueOf);
      var h := if Keeps(entries[0], valueOf) then 1 else 0;
      forall j, k | 0 <= j < k < |idx|
        ensures idx[j] < idx[k]
      {
        assert idx[k] == rest[k - h] + 1;
        if j >= h {
          assert idx[j] == rest[j - h] + 1;
        }
      }
    }
  }

  lemma {:induction false} KeptPositionsComplete<T>(entries: seq<Entry<T>>, valueOf: T -> Option<string>)
    ensures forall i :: 0 <= i < |entries| && Keeps(entries[i], valueOf) ==> i in KeptPositions(entries, valueOf)
  {
    if |entries| > 0 {
      var idx := KeptPositions(entries, valueOf);
      var rest := KeptPositions(entries[1..], valueOf);
      KeptPositionsComplete(entries[1..], valueOf);
      var h := if Keeps(entries[0], valueOf) then 1 else 0;
      forall i | 0 <= i < |entries| && Keeps(entries[i], valueOf)
        ensures i in idx
      {
        if i == 0 {
          assert idx[0] == 0;
        } else {
          assert entries[1..][i - 1] == entries[i];
          var j :| 0 <= j < |rest| && rest[j] == i - 1;
          assert idx[h + j] == i;
        }
      }
    }
  }

  /**
   The result is exactly the kept entries in input order: idx holds the
   positions the vars come from, strictly increasing, and every position whose
   entry is kept is among them.
   */
  lemma SelectVarsSelects<T>(entries: seq<Entry<T>>, valueOf: T -> Option<string>) returns (idx: seq<nat>)
    ensures |idx| == |SelectVars(entries, valueOf)|
    ensures forall j :: 0 <= j < |idx| ==>
      idx[j] < |entries| && Keeps(entries[idx[j]], valueOf) && SelectVars(entries, valueOf)[j] == VarOf(entries[idx[j]], valueOf)
    ensures forall j, k :: 0 <= j < k < |idx| ==> idx[j] < idx[k]
    ensures forall i :: 0 <= i < |entries| && Keeps(entries[i], valueOf) ==> i in idx
  {
    idx := KeptPositions(entries, valueOf);
    KeptPositionsMatch(entries, valueOf);
    KeptPositionsIncrease(entries, valueOf);
    KeptPositionsComplete(entries, valueOf);
  }

  /** A var is produced exactly when some entry with that key and value is kept. */
  lemma SelectVarsMembership<T>(entries: seq<Entry<T>>, valueOf: T -> Option<string>, v: Var)
    ensures v in SelectVars(entries, valueOf) <==>
      exists i :: 0 <= i < |entries| && Keeps(entries[i], valueOf) && VarOf(entries[i], valueOf) == v
  {
    var r := SelectVars(entries, valueOf);
    var idx := SelectVarsSelects(entries, valueOf);
    if v in r {
      var j :| 0 <= j < |r| && r[j] == v;
      assert Keeps(entries[idx[j]], valueOf) && VarOf(entries[idx[j]], valueOf) == v;
    }
    if exists i :: 0 <= i < |entries| && Keeps(entries[i], valueOf) && VarOf(entries[i], valueOf) == v {
      var i :| 0 <= i < |entries| && Keeps(entries[i], valueOf) && VarOf(entries[i], valueOf) == v;
      var j :| 0 <= j < |idx| && idx[j] == i;
      assert r[j] == v;
    }
  }

  /** The identity value accessor: a NameValueCollection's indexer already yields the value. */
  function Raw(value: Option<string>): Option<string>
  {
    value
  }

  /**
   ToAirbrakeVars: a var is in the result exactly when its key and value are
   non-empty and the collection pairs that key with that value.
   */
  function ToAirbrakeVars(nv: NameValueCollection): (r: seq<Var>)
    ensures r == SelectVars(nv, Raw)
    ensures forall v :: v in r <==> v.key != "" && v.value != "" && Entry(Some(v.key), Some(v.value)) in nv
  {
    var r := SelectVars(nv, Raw);
    forall v: Var
      ensures v in r <==> v.key != "" && v.value != "" && Entry(Some(v.key), Some(v.value)) in nv
    {
      SelectVarsMembership(nv, Raw, v);
      if Entry(Some(v.key), Some(v.value)) in nv && v.key != "" && v.value != "" {
        var i :| 0 <= i < |nv| && nv[i] == Entry(Some(v.key), Some(v.value));
        assert Keeps(nv[i], Raw) && VarOf(nv[i], Raw) == v;
      }
    }
    r
  }

  /** The name/value collection a sequence of vars reads back as. */
  function AsCollection(vars: seq<Var>): (nv: NameValueCollection)
  {
    if |vars| == 0 then [] else [Entry(Some(vars[0].key), Some(vars[0].value))] + AsCollection(vars[1..])
  }

  /** Vars with non-empty keys and values pass the filter unchanged. */
  lemma {:induction false} SelectVarsKeepsCleanVars(vars: seq<Var>)
    requires forall i :: 0 <= i < |vars| ==> vars[i].key != "" && vars[i].value != ""
    ensures SelectVars(AsCollection(vars), Raw) == vars
  {
    if |vars| > 0 {
      var nv := AsCollection(vars);
      assert nv[1..] == AsCollection(vars[1..]);
      SelectVarsKeepsCleanVars(vars[1..]);
      assert [vars[0]] + vars[1..] == vars;
    }
  }

  /** The filter is idempotent: filtering its own output again changes nothing. */
  lemma SelectVarsIdempotent<T>(entries: seq<Entry<T>>, valueOf: T -> Option<string>)
    ensures SelectVars(AsCollection(SelectVars(entries, valueOf)), Raw) == SelectVars(entries, valueOf)
  {
    SelectVarsKeepsCleanVars(SelectVars(entries, valueOf));
  }

  /** The outcome of invoking a getter: the value it returned, or the fact that it threw. */
  datatype Getter<T> = Returns(value: T) | Throws

  /**
   TryGet: the getter's value when it returns one, the type's default value
   (given as default) when it throws; either way nothing propagates.
   */
  function TryGet<O, T>(instance: O, getter: O -> Getter<T>, default: T): (r: T)
    ensures getter(instance).Returns? ==> r == getter(instance).value
    ensures getter(instance).Throws? ==> r == default
  {
    match getter(instance)
    case Returns(v) => v
    case Throws => default
  }
}
