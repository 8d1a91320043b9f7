/**
 * Log objects: the tokens that travel through object places.
 *
 * An object is identified by `Token(id, otype)`, its running creation number
 * and its object-type tag (the dynamically created class in the program).
 * Everything that changes over the object's life (status, attributes,
 * quantities) lives in an `ObjectRecord`; the net only ever holds tokens.
 */
module Objects {
  import opened Wrappers
  import opened Counters
  import Decimal

  const QuantityUpdateNotCounter := "Quantity update must be a Counter object."
  const NotAnObjectMsg := "Only Objects can be added to this multiset."

  /** `StatusCreated`, `StatusActive`, `StatusTerminated`, `StatusInactive`. */
  datatype Status = Created | Active | Terminated | Inactive

  datatype Token = Token(id: nat, otype: string)

  /** A binding function maps each object type to the objects bound for it. */
  type Binding = map<string, set<Token>>

  /** User-defined attribute values are opaque to the model. */
  type AttrValue = PyValue

  datatype ObjectRecord = ObjectRecord(
    token: Token,
    name: string,
    lbl: Option<string>,
    status: Status,
    attributes: map<string, AttrValue>,
    quantities: Counter,
    lastChangeAttributes: int,
    changedAttributes: seq<string>,
    lastChangeQuantities: int)
  {
    /** `status_active`: only an `Active` status counts. */
    predicate StatusActive() {
      status.Active?
    }
  }

  /** The attribute names every object carries and that attribute changes never touch. */
  const DefaultAttributes: set<string> :=
    {"_id", "_status", "_log_object", "_name", "_label", "_properties", "object_type",
     "quantities", "last_change_attributes", "last_change_quantities", "o2o",
     "changed_attributes", "object_type_name"}

  /** The name of the object created when the global object count is `count`. */
  function ObjectName(count: nat): string {
    "o-" + Decimal.NatToString(count)
  }

  /**
   * Constructs the object numbered `count` of type `otype`: the default
   * attribute values of its type overlaid with the keyword arguments.
   * Returns the record and the incremented global count.
   */
  function NewObject(count: nat, otype: string, timestamp: int, quantities: Counter,
                     lbl: Option<string>, defaults: map<string, AttrValue>,
                     kwargs: map<string, AttrValue>): (r: (ObjectRecord, nat))
    ensures r.1 == count + 1
    ensures r.0.token == Token(count, otype)
    ensures r.0.status == Created && !r.0.StatusActive()
    ensures r.0.name == ObjectName(count)
    ensures r.0.lbl.Some? <==> lbl.Some? && lbl.value != ""
    ensures r.0.attributes.Keys == defaults.Keys + kwargs.Keys
    ensures forall a | a in kwargs :: r.0.attributes[a] == kwargs[a]
    ensures r.0.changedAttributes == []
    ensures r.0.lastChangeAttributes == timestamp && r.0.lastChangeQuantities == timestamp
  {
    var l := if lbl.Some? && lbl.value != "" then lbl else None;
    (ObjectRecord(Token(count, otype), ObjectName(count), l, Created, defaults + kwargs,
                  quantities, timestamp, [], timestamp), count + 1)
  }

  /** Objects created from distinct counts carry distinct names. */
  lemma ObjectNamesDistinct(m: nat, n: nat)
    requires m != n
    ensures ObjectName(m) != ObjectName(n)
  {
    Decimal.PrefixedNameInjective("o-", m, n);
  }

  /** An attribute a change may overwrite: present on the object and not built in. */
  predicate Changeable(attrs: map<string, AttrValue>, a: string) {
    a in attrs && a !in DefaultAttributes
  }

  /** Applies the requested changes in order, skipping attributes that are not changeable. */
  function ApplyChanges(attrs: map<string, AttrValue>, changes: seq<(string, AttrValue)>): (r: map<string, AttrValue>)
    ensures r.Keys == attrs.Keys
    decreases |changes|
  {
    if |changes| == 0 then attrs
    else
      var (a, v) := changes[0];
      ApplyChanges(if Changeable(attrs, a) then attrs[a := v] else attrs, changes[1..])
  }

  /** The attribute names of `changes` that are changeable, in request order. */
  function ChangedNames(attrs: map<string, AttrValue>, changes: seq<(string, AttrValue)>): (r: seq<string>)
    ensures |r| <= |changes|
    ensures forall i | 0 <= i < |r| :: Changeable(attrs, r[i])
    decreases |changes|
  {
    if |changes| == 0 then []
    else if Changeable(attrs, changes[0].0) then [changes[0].0] + ChangedNames(attrs, changes[1..])
    else ChangedNames(attrs, changes[1..])
  }

  /** The value last requested for attribute `a`, if any. */
  function LastRequested(changes: seq<(string, AttrValue)>, a: string): Option<AttrValue>
    decreases |changes|
  {
    if |changes| == 0 then None
    else if changes[|changes| - 1].0 == a then Some(changes[|changes| - 1].1)
    else LastRequested(changes[..|changes| - 1], a)
  }

  /** Reference value of attribute `a` after the changes: the last request if it may change, else its old value. */
  function Expected(attrs: map<string, AttrValue>, changes: seq<(string, AttrValue)>, a: string): AttrValue
    requires a in attrs
  {
    if Changeable(attrs, a) && LastRequested(changes, a).Some? then LastRequested(changes, a).value else attrs[a]
  }

  /** The attribute-wise meaning of `ApplyChanges`: the last request wins, and only changeable attributes move. */
  lemma {:induction false} ApplyChangesMeaning(attrs: map<string, AttrValue>, changes: seq<(string, AttrValue)>, a: string)
    requires a in attrs
    ensures ApplyChanges(attrs, changes)[a] == Expected(attrs, changes, a)
    decreases |changes|
  {
    if |changes| == 0 {
    } else {
      var (b, v) := changes[0];
      var next := if Changeable(attrs, b) then attrs[b := v] else attrs;
      assert next.Keys == attrs.Keys;
      assert Changeable(next, a) == Changeable(attrs, a);
      ApplyChangesMeaning(next, changes[1..], a);
      LastRequestedSplit(changes, a);
    }
  }

  /** The last request in a non-empty sequence is the last one in its tail, or else its head. */
  lemma {:induction false} LastRequestedSplit(changes: seq<(string, AttrValue)>, a: string)
    requires |changes| > 0
    ensures LastRequested(changes, a) ==
      if LastRequested(changes[1..], a).Some? then LastRequested(changes[1..], a)
      else if changes[0].0 == a then Some(changes[0].1) else None
    decreases |changes|
  {
    if |changes| == 1 {
      assert changes[1..] == [];
      assert changes[..0] == [];
    } else {
      var n := |changes|;
      if changes[n - 1].0 != a {
        LastRequestedSplit(changes[..n - 1], a);
        assert changes[..n - 1][1..] == changes[1..][..n - 2];
        assert changes[..n - 1][0] == changes[0];
      }
    }
  }

  /** `change_object_attributes`. */
  function ChangeObjectAttributes(o: ObjectRecord, timestamp: int, changes: seq<(string, AttrValue)>): (r: ObjectRecord)
    ensures r.attributes.Keys == o.attributes.Keys
    ensures forall a | a in o.attributes :: r.attributes[a] == Expected(o.attributes, changes, a)
    ensures forall i | 0 <= i < |r.changedAttributes| :: Changeable(o.attributes, r.changedAttributes[i])
    ensures forall i | 0 <= i < |changes| && Changeable(o.attributes, changes[i].0) :: changes[i].0 in r.changedAttributes
    ensures exists ix :: InRequestOrder(o.attributes, changes, r.changedAttributes, ix)
    ensures r.lastChangeAttributes == timestamp
    ensures r.token == o.token && r.status == o.status && r.quantities == o.quantities
  {
    assert exists ix :: InRequestOrder(o.attributes, changes, ChangedNames(o.attributes, changes), ix) by {
      var ix := ChangedNamesInOrder(o.attributes, changes);
    }
    ChangedNamesComplete(o.attributes, changes);
    AllAttributesMeaning(o.attributes, changes);
    o.(attributes := ApplyChanges(o.attributes, changes),
       changedAttributes := ChangedNames(o.attributes, changes),
       lastChangeAttributes := timestamp)
  }

  /**
   * `names` lists the changeable requests of `changes` one per request, in
   * request order: `ix` picks, increasingly, every changeable request's index.
   */
  predicate InRequestOrder(attrs: map<string, AttrValue>, changes: seq<(string, AttrValue)>, names: seq<string>, ix: seq<int>) {
    PicksFrom(attrs, changes, names, ix, 0)
  }

  /** `ix` picks `names`, increasingly, among the requests from index `lo` on, and picks every changeable one of them. */
  predicate PicksFrom(attrs: map<string, AttrValue>, changes: seq<(string, AttrValue)>, names: seq<string>, ix: seq<int>, lo: nat) {
    && |ix| == |names|
    && (forall k | 0 <= k < |ix| :: lo <= ix[k] < |changes| && names[k] == changes[ix[k]].0)
    && (forall k, l | 0 <= k < l < |ix| :: ix[k] < ix[l])
    && (forall i | lo <= i < |changes| && Changeable(attrs, changes[i].0) :: i in ix)
  }

  /** The recorded names are the changeable requests, each once, in the order they were requested. */
  lemma {:induction false} ChangedNamesInOrder(attrs: map<string, AttrValue>, changes: seq<(string, AttrValue)>)
    returns (ix: seq<int>)
    ensures InRequestOrder(attrs, changes, ChangedNames(attrs, changes), ix)
    decreases |changes|
  {
    if |changes| == 0 {
      ix := [];
    } else {
      var tail := ChangedNamesInOrder(attrs, changes[1..]);
      var tn := ChangedNames(attrs, changes[1..]);
      ShiftedOrder(attrs, changes, tn, tail);
      if Changeable(attrs, changes[0].0) {
        assert ChangedNames(attrs, changes) == [changes[0].0] + tn;
        ix := PickFirst(attrs, changes, tn, Shift(tail));
      } else {
        assert ChangedNames(attrs, changes) == tn;
        ix := Shift(tail);
        SkipFirst(attrs, changes, tn, ix);
      }
    }
  }

  /** Every index moved one request later. */
  function Shift(ix: seq<int>): (r: seq<int>)
    ensures |r| == |ix| && forall k | 0 <= k < |ix| :: r[k] == ix[k] + 1
    decreases |ix|
  {
    if ix == [] then [] else [ix[0] + 1] + Shift(ix[1..])
  }

  /** A changeable first request joins the picks made from the second request on. */
  lemma PickFirst(attrs: map<string, AttrValue>, changes: seq<(string, AttrValue)>, names: seq<string>, sh: seq<int>)
    returns (ix: seq<int>)
    requires |changes| > 0 && Changeable(attrs, changes[0].0)
    requires PicksFrom(attrs, changes, names, sh, 1)
    ensures PicksFrom(attrs, changes, [changes[0].0] + names, ix, 0)
  {
    ix := [0] + sh;
    var all := [changes[0].0] + names;
    forall k | 0 <= k < |ix| ensures 0 <= ix[k] < |changes| && all[k] == changes[ix[k]].0 {
      if k > 0 {
        assert ix[k] == sh[k - 1] && all[k] == names[k - 1];
      }
    }
    forall k, l | 0 <= k < l < |ix| ensures ix[k] < ix[l] {
      assert ix[l] == sh[l - 1];
      if k > 0 {
        assert ix[k] == sh[k - 1];
      }
    }
  }

  /** A first request that is not changeable adds no pick. */
  lemma SkipFirst(attrs: map<string, AttrValue>, changes: seq<(string, AttrValue)>, names: seq<string>, sh: seq<int>)
    requires |changes| > 0 && !Changeable(attrs, changes[0].0)
    requires PicksFrom(attrs, changes, names, sh, 1)
    ensures PicksFrom(attrs, changes, names, sh, 0)
  {
  }

  /** The tail's indices, moved one later, pick the same names among all the requests. */
  lemma ShiftedOrder(attrs: map<string, AttrValue>, changes: seq<(string, AttrValue)>, tn: seq<string>, tail: seq<int>)
    requires |changes| > 0
    requires InRequestOrder(attrs, changes[1..], tn, tail)
    ensures PicksFrom(attrs, changes, tn, Shift(tail), 1)
  {
    var sh := Shift(tail);
    forall k | 0 <= k < |sh| ensures 1 <= sh[k] < |changes| && tn[k] == changes[sh[k]].0 {
      assert changes[sh[k]] == changes[1..][tail[k]];
    }
    forall i | 1 <= i < |changes| && Changeable(attrs, changes[i].0) ensures i in sh {
      assert changes[1..][i - 1] == changes[i];
      var k :| 0 <= k < |tail| && tail[k] == i - 1;
      assert sh[k] == i;
    }
  }

  lemma {:induction false} ChangedNamesComplete(attrs: map<string, AttrValue>, changes: seq<(string, AttrValue)>)
    ensures forall i | 0 <= i < |changes| && Changeable(attrs, changes[i].0) :: changes[i].0 in ChangedNames(attrs, changes)
    decreases |changes|
  {
    if |changes| > 0 {
      ChangedNamesComplete(attrs, changes[1..]);
      forall i | 0 <= i < |changes| && Changeable(attrs, changes[i].0)
        ensures changes[i].0 in ChangedNames(attrs, changes)
      {
        if i > 0 {
          assert changes[i] == changes[1..][i - 1];
        }
      }
    }
  }

  lemma AllAttributesMeaning(attrs: map<string, AttrValue>, changes: seq<(string, AttrValue)>)
    ensures forall a | a in attrs :: ApplyChanges(attrs, changes)[a] == Expected(attrs, changes, a)
  {
    forall a | a in attrs
      ensures ApplyChanges(attrs, changes)[a] == Expected(attrs, changes, a)
    {
      ApplyChangesMeaning(attrs, changes, a);
    }
  }

  /** `change_object_quantity`: a non-Counter argument raises; otherwise the update is added, signed. */
  function ChangeObjectQuantity(o: ObjectRecord, timestamp: int, op: PyValue): (r: Result<ObjectRecord>)
    ensures r.Err? <==> !op.PyCounter?
    ensures r.Ok? ==> forall k :: Get(r.value.quantities, k) == Get(o.quantities, k) + Get(op.c, k)
    ensures r.Ok? ==> r.value.lastChangeQuantities == timestamp
    ensures r.Ok? ==> r.value.attributes == o.attributes && r.value.status == o.status
  {
    if !op.PyCounter? then Err(ValueError(QuantityUpdateNotCounter))
    else
      UpdateMeaning(o.quantities, op.c);
      Ok(o.(quantities := Update(o.quantities, op.c), lastChangeQuantities := timestamp))
  }

  /** `clear_changed_attributes`. */
  function ClearChangedAttributes(o: ObjectRecord): (r: ObjectRecord)
    ensures r.changedAttributes == []
    ensures r.attributes == o.attributes && r.quantities == o.quantities && r.status == o.status
  {
    o.(changedAttributes := [])
  }

  /** An element offered to a `MultisetObject`: either a log object or anything else. */
  datatype Element = Obj(token: Token) | NotAnObject

  /** `MultisetObject(iterable)`: every element must be an object. */
  function MakeMultisetObject(items: seq<Element>): (r: Result<multiset<Token>>)
    ensures r.Err? <==> exists i | 0 <= i < |items| :: items[i].NotAnObject?
    ensures r.Ok? ==> |r.value| == |items|
    ensures r.Ok? ==> forall i | 0 <= i < |items| :: items[i].token in r.value
    ensures r.Ok? ==> r.value == multiset(seq(|items|, i requires 0 <= i < |items| => items[i].token))
    decreases |items|
  {
    if |items| == 0 then Ok(multiset{})
    else if items[0].NotAnObject? then Err(ValueError(NotAnObjectMsg))
    else
      var rest := MakeMultisetObject(items[1..]);
      if rest.Err? then
        assert exists i | 0 <= i < |items| :: items[i].NotAnObject? by {
          var j :| 0 <= j < |items[1..]| && items[1..][j].NotAnObject?;
          assert items[j + 1].NotAnObject?;
        }
        rest
      else
        assert forall i | 1 <= i < |items| :: items[i] == items[1..][i - 1];
        assert seq(|items|, i requires 0 <= i < |items| => items[i].token)
          == [items[0].token] + seq(|items[1..]|, i requires 0 <= i < |items[1..]| => items[1..][i].token);
        Ok(rest.value + multiset{items[0].token})
  }

  /** `MultisetObject.add`. */
  function MultisetAdd(m: multiset<Token>, e: Element): (r: Result<multiset<Token>>)
    ensures r.Err? <==> e.NotAnObject?
    ensures r.Ok? ==> r.value[e.token] == m[e.token] + 1
    ensures r.Ok? ==> forall t | t != e.token :: r.value[t] == m[t]
  {
    if e.NotAnObject? then Err(ValueError(NotAnObjectMsg))
    else Ok(m + multiset{e.token})
  }

  /** Every object named in a binding. */
  function BoundObjects(b: Binding): (r: set<Token>)
    ensures forall t :: t in r <==> exists ot | ot in b :: t in b[ot]
  {
    set ot, t | ot in b && t in b[ot] :: t
  }
}
