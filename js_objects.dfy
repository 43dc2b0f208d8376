/** Plain JavaScript objects as the builders see them: an ordered list of
    properties with distinct names, enumerated by Object.keys / Object.values in
    insertion order, and whose properties can be reassigned in place. */
module JsObjects {
  import opened Decimal

  /** The property values the builders handle: strings and integers. */
  datatype Value = Str(s: string) | Num(n: int)

  /** One own property: its name and its value. */
  type Entry = (string, Value)

  /** Object.keys: the property names in insertion order. */
  function Keys(es: seq<Entry>): (ks: seq<string>)
    ensures |ks| == |es|
    ensures forall i :: 0 <= i < |es| ==> ks[i] == es[i].0
  {
    seq(|es|, i requires 0 <= i < |es| => es[i].0)
  }

  /** Object.values: the property values in the same order as Object.keys. */
  function Values(es: seq<Entry>): (vs: seq<Value>)
    ensures |vs| == |es|
    ensures forall i :: 0 <= i < |es| ==> vs[i] == es[i].1
  {
    seq(|es|, i requires 0 <= i < |es| => es[i].1)
  }

  /** An object never has two properties of the same name. */
  predicate DistinctKeys(es: seq<Entry>) {
    forall i, j :: 0 <= i < j < |es| ==> es[i].0 != es[j].0
  }

  /** The position of the property named k. */
  function IndexOf(es: seq<Entry>, k: string): (i: nat)
    requires k in Keys(es)
    ensures i < |es| && es[i].0 == k
    ensures forall j :: 0 <= j < i ==> es[j].0 != k
  {
    if es[0].0 == k then 0
    else
      assert k in Keys(es[1..]) by {
        var p :| 0 <= p < |es| && Keys(es)[p] == k;
        assert Keys(es[1..])[p - 1] == k;
      }
      1 + IndexOf(es[1..], k)
  }

  /** Reading `obj[k]` for a property the object has. */
  function Lookup(es: seq<Entry>, k: string): Value
    requires k in Keys(es)
  {
    es[IndexOf(es, k)].1
  }

  /** In an object, the property at position i is the one every read of its name finds. */
  lemma LookupAt(es: seq<Entry>, i: nat)
    requires DistinctKeys(es) && i < |es|
    ensures es[i].0 in Keys(es) && Lookup(es, es[i].0) == es[i].1
  {
    assert Keys(es)[i] == es[i].0;
  }

  /** The assignment `obj[k] = v`: an existing property keeps its place and takes the
      new value; a new one is added at the end. */
  function Assign(es: seq<Entry>, k: string, v: Value): (r: seq<Entry>)
    ensures k in Keys(es) ==> Keys(r) == Keys(es)
    ensures k !in Keys(es) ==> Keys(r) == Keys(es) + [k]
  {
    if k in Keys(es) then es[IndexOf(es, k) := (k, v)] else es + [(k, v)]
  }

  /** Assigning a property of an object changes that property's value and nothing else. */
  lemma AssignEffect(es: seq<Entry>, k: string, v: Value)
    requires DistinctKeys(es)
    ensures DistinctKeys(Assign(es, k, v))
    ensures k in Keys(Assign(es, k, v)) && Lookup(Assign(es, k, v), k) == v
    ensures k in Keys(es) ==> |Assign(es, k, v)| == |es|
    ensures forall i :: 0 <= i < |es| && es[i].0 != k ==> Assign(es, k, v)[i] == es[i]
    ensures forall i :: 0 <= i < |es| && es[i].0 == k ==> Assign(es, k, v)[i] == (k, v)
  {
    var r := Assign(es, k, v);
    if k in Keys(es) {
      var p := IndexOf(es, k);
      assert r == es[p := (k, v)];
      assert forall i :: 0 <= i < |es| && es[i].0 == k ==> i == p;
      LookupAt(r, p);
    } else {
      assert forall i :: 0 <= i < |es| ==> es[i].0 != k by {
        forall i | 0 <= i < |es| ensures es[i].0 != k {
          assert Keys(es)[i] == es[i].0;
        }
      }
      LookupAt(r, |es|);
    }
  }

  /** The text a template literal `${v}` produces for v. */
  function TemplateString(v: Value): string {
    match v
    case Str(s) => s
    case Num(n) => IntToString(n)
  }

  /** A mutable JavaScript object passed by reference to a builder. */
  class PlainObject {
    var entries: seq<Entry>

    ghost predicate Valid()
      reads this
    {
      DistinctKeys(entries)
    }

    constructor (es: seq<Entry>)
      requires DistinctKeys(es)
      ensures Valid() && entries == es
    {
      entries := es;
    }

    /** Reading `obj[k]` for a property the object has. */
    function Property(k: string): Value
      requires Valid() && k in Keys(entries)
      reads this
    {
      Lookup(entries, k)
    }

    /** The assignment `obj[k] = v`. */
    method SetProperty(k: string, v: Value)
      requires Valid()
      modifies this
      ensures Valid()
      ensures entries == Assign(old(entries), k, v)
    {
      AssignEffect(entries, k, v);
      entries := Assign(entries, k, v);
    }
  }
}
