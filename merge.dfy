/**
 * Record merge (`Hackfoldrs._merged_foldr`): fold the fields of a newly found record into
 * a copy of the prior record, with one rule per field type.
 */
module Merge {
  import opened Base
  import opened Strings
  import opened Json

  /** The fields of an incoming record in iteration order (a Python dict is ordered). */
  type NewFields = seq<(string, Value)>

  /** The elements of a prior set field, or none when the prior record lacks the field. */
  function PriorElems(prev: Option<Value>): set<string>
    requires prev.None? || prev.value.Bag?
  {
    if prev.None? then {} else prev.value.elems
  }

  /** The merged value of one field, from the prior record's value for the key (if any) and
      the incoming record's value `v`: a list is united with the prior value and kept sorted, a
      set is united with the prior set, a dict is not supported, anything else overwrites. */
  function MergeValue(prev: Option<Value>, v: Value): (r: Result<Value>)
    ensures v.Record? ==> r == Err(NotImplementedError)
    ensures v.Str? || v.Literal? ==> r == Ok(v)
    ensures v.Bag? ==>
      && (r.Ok? <==> prev.None? || prev.value.Bag?)
      && (r.Err? ==> r.error == TypeError)
      && (r.Ok? ==> r.value.Bag? && forall x :: x in r.value.elems <==> x in v.elems || x in PriorElems(prev))
    ensures v.Items? ==>
      && (r.Ok? <==> prev.None? || !prev.value.Literal?)
      && (r.Err? ==> r.error == TypeError)
      && (r.Ok? ==> && r.value.Items?
                    && StrictlyIncreasing(r.value.xs)
                    && forall x :: x in r.value.xs <==> x in v.xs || (prev.Some? && x in ToSet(prev.value).value))
  {
    match v
    case Items(xs) =>
      var o :- if prev.Some? then ToSet(prev.value) else Ok({});
      Ok(Items(SortedOf(o + set x | x in xs)))
    case Bag(elems) =>
      if prev.None? then Ok(Bag(elems))
      else if prev.value.Bag? then Ok(Bag(prev.value.elems + elems))
      else Err(TypeError)
    case Record(_) => Err(NotImplementedError)
    case _ => Ok(v)
  }

  /** The record `_merged_foldr` returns: the fields of `incoming` applied in order to `prior`;
      the first field that cannot be merged aborts with its exception. */
  function MergeFolder(prior: Fields, incoming: NewFields): Result<Fields>
    decreases |incoming|
  {
    if incoming == [] then Ok(prior)
    else
      var merged :- MergeValue(Get(prior, incoming[0].0), incoming[0].1);
      MergeFolder(prior[incoming[0].0 := merged], incoming[1..])
  }

  /** `_merged_foldr`: loop over the incoming record's items, updating a copy of the prior record. */
  method MergedFolder(prior: Fields, incoming: NewFields) returns (r: Result<Fields>)
    ensures r == MergeFolder(prior, incoming)
  {
    var merged := prior;
    var i := 0;
    while i < |incoming|
      invariant 0 <= i <= |incoming|
      invariant MergeFolder(prior, incoming) == MergeFolder(merged, incoming[i..])
    {
      var (k, v) := incoming[i];
      assert incoming[i..][1..] == incoming[i + 1..];
      match v {
        case Items(xs) =>
          var o := if k in merged then ToSet(merged[k]) else Ok({});
          if o.Err? {
            return Err(o.error);
          }
          merged := merged[k := Items(SortedOf(o.value + set x | x in xs))];
        case Bag(elems) =>
          if k !in merged {
            merged := merged[k := Bag(elems)];
          } else if merged[k].Bag? {
            merged := merged[k := Bag(merged[k].elems + elems)];
          } else {
            return Err(TypeError);
          }
        case Record(_) =>
          return Err(NotImplementedError);
        case _ =>
          merged := merged[k := v];
      }
      i := i + 1;
    }
    r := Ok(merged);
  }

  /** A Python dict never repeats a key. */
  ghost predicate DistinctKeys(incoming: NewFields) {
    forall i, j :: 0 <= i < j < |incoming| ==> incoming[i].0 != incoming[j].0
  }

  function KeysOf(incoming: NewFields): set<string> {
    set i | 0 <= i < |incoming| :: incoming[i].0
  }

  /** The merged value of field `f` of the incoming record, against the record `prior`. */
  function FieldMerge(prior: Fields, f: (string, Value)): Result<Value> {
    MergeValue(Get(prior, f.0), f.1)
  }

  /** Field `i` of the incoming record is the first one that cannot be merged into `prior`. */
  ghost predicate FirstFailure(prior: Fields, incoming: NewFields, i: int) {
    && 0 <= i < |incoming|
    && FieldMerge(prior, incoming[i]).Err?
    && forall j :: 0 <= j < i ==> FieldMerge(prior, incoming[j]).Ok?
  }

  /** After the first field is merged, the remaining fields see the same prior values. */
  lemma RestOfFields(prior: Fields, incoming: NewFields, x: Value)
    requires DistinctKeys(incoming) && incoming != []
    ensures DistinctKeys(incoming[1..])
    ensures forall i :: 0 <= i < |incoming| - 1 ==>
      incoming[1..][i] == incoming[i + 1] && FieldMerge(prior[incoming[0].0 := x], incoming[1..][i]) == FieldMerge(prior, incoming[i + 1])
    ensures KeysOf(incoming) == {incoming[0].0} + KeysOf(incoming[1..])
  {
    var rest := incoming[1..];
    forall y | y in KeysOf(incoming) ensures y in {incoming[0].0} + KeysOf(rest) {
      var i :| 0 <= i < |incoming| && incoming[i].0 == y;
      if i > 0 {
        assert rest[i - 1].0 == y;
      }
    }
    forall i | 0 <= i < |rest| ensures FieldMerge(prior[incoming[0].0 := x], rest[i]) == FieldMerge(prior, incoming[i + 1]) {
      assert rest[i] == incoming[i + 1] && incoming[i + 1].0 != incoming[0].0;
    }
  }

  /** The merge succeeds exactly when every field merges on its own. */
  lemma {:induction false} MergeFolderOk(prior: Fields, incoming: NewFields)
    requires DistinctKeys(incoming)
    ensures MergeFolder(prior, incoming).Ok? <==> forall i :: 0 <= i < |incoming| ==> FieldMerge(prior, incoming[i]).Ok?
    decreases |incoming|
  {
    if incoming != [] {
      var first := FieldMerge(prior, incoming[0]);
      if first.Ok? {
        RestOfFields(prior, incoming, first.value);
        MergeFolderOk(prior[incoming[0].0 := first.value], incoming[1..]);
      }
    }
  }

  /** A successful merge covers the keys of both records, holds each merged field's value,
      and keeps every field the incoming record lacks. */
  lemma {:induction false} MergeFolderFields(prior: Fields, incoming: NewFields)
    requires DistinctKeys(incoming)
    requires MergeFolder(prior, incoming).Ok?
    ensures MergeFolder(prior, incoming).value.Keys == prior.Keys + KeysOf(incoming)
    ensures forall i :: 0 <= i < |incoming| ==>
      FieldMerge(prior, incoming[i]).Ok? && MergeFolder(prior, incoming).value[incoming[i].0] == FieldMerge(prior, incoming[i]).value
    ensures forall k :: k in prior && k !in KeysOf(incoming) ==> MergeFolder(prior, incoming).value[k] == prior[k]
    decreases |incoming|
  {
    if incoming != [] {
      var first := FieldMerge(prior, incoming[0]);
      RestOfFields(prior, incoming, first.value);
      MergeFolderFields(prior[incoming[0].0 := first.value], incoming[1..]);
    }
  }

  /** A failing merge raises the exception of the first field that cannot be merged. */
  lemma {:induction false} MergeFolderError(prior: Fields, incoming: NewFields)
    requires DistinctKeys(incoming)
    requires MergeFolder(prior, incoming).Err?
    ensures exists i :: FirstFailure(prior, incoming, i) && FieldMerge(prior, incoming[i]) == Err(MergeFolder(prior, incoming).error)
    decreases |incoming|
  {
    var first := FieldMerge(prior, incoming[0]);
    if first.Err? {
      assert FirstFailure(prior, incoming, 0);
    } else {
      var prior1 := prior[incoming[0].0 := first.value];
      RestOfFields(prior, incoming, first.value);
      MergeFolderError(prior1, incoming[1..]);
      var i :| FirstFailure(prior1, incoming[1..], i) && FieldMerge(prior1, incoming[1..][i]) == Err(MergeFolder(prior1, incoming[1..]).error);
      assert FirstFailure(prior, incoming, i + 1);
    }
  }

  lemma ListMergeIdempotent(prev: Option<Value>, xs: seq<string>)
    requires MergeValue(prev, Items(xs)).Ok?
    ensures MergeValue(Some(MergeValue(prev, Items(xs)).value), Items(xs)) == MergeValue(prev, Items(xs))
  {
    var o := if prev.Some? then ToSet(prev.value).value else {};
    var u := o + set x | x in xs;
    SortedOfElements(u);
    assert u + (set x | x in xs) == u;
  }

  /** Merging a field a second time changes nothing. */
  lemma MergeValueIdempotent(prev: Option<Value>, v: Value)
    requires MergeValue(prev, v).Ok?
    ensures MergeValue(Some(MergeValue(prev, v).value), v) == MergeValue(prev, v)
  {
    match v {
      case Items(xs) =>
        ListMergeIdempotent(prev, xs);
      case Bag(elems) =>
        var m := MergeValue(prev, v).value;
        assert m.elems + elems == m.elems;
      case _ =>
    }
  }

  /** Merging the same incoming record into the result of merging it changes nothing. */
  lemma MergeIdempotent(prior: Fields, incoming: NewFields)
    requires DistinctKeys(incoming)
    requires MergeFolder(prior, incoming).Ok?
    ensures MergeFolder(MergeFolder(prior, incoming).value, incoming) == MergeFolder(prior, incoming)
  {
    var m := MergeFolder(prior, incoming).value;
    MergeFolderOk(prior, incoming);
    MergeFolderFields(prior, incoming);
    forall i | 0 <= i < |incoming| ensures FieldMerge(m, incoming[i]) == Ok(m[incoming[i].0]) {
      MergeValueIdempotent(Get(prior, incoming[i].0), incoming[i].1);
    }
    MergeFolderOk(m, incoming);
    MergeFolderFields(m, incoming);
    var m2 := MergeFolder(m, incoming).value;
    assert forall k :: k in m2 <==> k in m;
    forall k | k in m ensures m2[k] == m[k] {
      if k in KeysOf(incoming) {
        var i :| 0 <= i < |incoming| && incoming[i].0 == k;
      }
    }
    assert m2 == m;
  }

  /** The pads recorded in a set field never shrink: the prior set is kept unless the incoming
      record overwrites the field with a value that is not a set. */
  lemma MergeKeepsOldSet(prior: Fields, incoming: NewFields, k: string)
    requires DistinctKeys(incoming)
    requires MergeFolder(prior, incoming).Ok?
    requires k in prior && prior[k].Bag?
    requires forall i :: 0 <= i < |incoming| && incoming[i].0 == k ==> incoming[i].1.Bag?
    ensures k in MergeFolder(prior, incoming).value && MergeFolder(prior, incoming).value[k].Bag?
    ensures prior[k].elems <= MergeFolder(prior, incoming).value[k].elems
  {
    MergeFolderOk(prior, incoming);
    MergeFolderFields(prior, incoming);
    if k in KeysOf(incoming) {
      var i :| 0 <= i < |incoming| && incoming[i].0 == k;
    }
  }
}
