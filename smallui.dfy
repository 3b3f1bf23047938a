/**
 The record store of smallui: an ordered list of data objects ("dobj"), each a
 string-keyed map carrying `_id` and `_type`, with lookup, partial-field merge,
 append-insert, upsert, delete and a write-once cache of per-form defaults.

 Ids are normalised to strings, so JavaScript's loose `==` on ids becomes
 equality of optional strings: a key that is absent reads as `undefined`, and
 `undefined == undefined` holds.
 */
module SmallUi {
  import opened Filtering
  import opened Decimal

  datatype Option<T> = None | Some(value: T)

  /** A data object: string keys to string values. */
  type Record = map<string, string>

  const ID_KEY: string := "_id"
  const TYPE_KEY: string := "_type"
  /** The `_id` that asks insertData for a fresh id. */
  const CREATION_SENTINEL: string := "0"
  /** The `_id` and `_type` a form reading supplies when the form has no such field. */
  const FORM_NO_ID: string := "-1"
  const FORM_NO_TYPE: string := "notype"

  /** Property access `r[k]`: `undefined` (None) when the key is absent. */
  function Field(r: Record, k: string): Option<string> {
    if k in r then Some(r[k]) else None
  }

  /** `a._id == b._id` with ids normalised to strings. */
  predicate SameId(a: Record, b: Record) {
    Field(a, ID_KEY) == Field(b, ID_KEY)
  }

  /** `a._id == id` for a string `id`: never true of a record without `_id`. */
  predicate HasId(a: Record, id: string) {
    Field(a, ID_KEY) == Some(id)
  }

  function SameIdAs(dobj: Record): Record -> bool {
    a => SameId(a, dobj)
  }

  function HasIdOf(id: string): Record -> bool {
    a => HasId(a, id)
  }

  function HasOtherId(id: string): Record -> bool {
    a => !HasId(a, id)
  }

  /** No two records of the store share an `_id` (a missing `_id` counts as one value). */
  ghost predicate IdsUnique(data: seq<Record>) {
    forall i, j :: 0 <= i < j < |data| ==> !SameId(data[i], data[j])
  }

  // ---------------------------------------------------------------------------
  // Lookup

  /** getData: the records satisfying `findFun`, collected by one pass over the store. */
  method GetData(data: seq<Record>, findFun: Record -> bool) returns (resultList: seq<Record>)
    ensures resultList == Filter(data, findFun)
  {
    resultList := [];
    var i := 0;
    while i < |data|
      invariant 0 <= i <= |data|
      invariant resultList == Filter(data[..i], findFun)
    {
      var e := data[i];
      assert data[..i + 1] == data[..i] + [e];
      FilterSnoc(data[..i], e, findFun);
      if findFun(e) {
        resultList := resultList + [e];
      }
      i := i + 1;
    }
    assert data[..i] == data;
  }

  /** getDataById: the records whose `_id` is `findId`, in store order. */
  function GetDataById(data: seq<Record>, findId: string): (found: seq<Record>)
    ensures |found| <= |data|
    ensures forall r :: r in found <==> r in data && HasId(r, findId)
  {
    FilterMembers(data, HasIdOf(findId));
    Filter(data, HasIdOf(findId))
  }

  /** With unique ids a lookup by id finds at most one record. */
  lemma {:induction false} UniqueIdsFindAtMostOne(data: seq<Record>, id: string)
    requires IdsUnique(data)
    ensures |GetDataById(data, id)| <= 1
    decreases |data|
  {
    if data != [] {
      var n := |data| - 1;
      var init := data[..n];
      assert IdsUnique(init) by {
        forall i, j | 0 <= i < j < |init| ensures !SameId(init[i], init[j]) {
          assert init[i] == data[i] && init[j] == data[j];
        }
      }
      UniqueIdsFindAtMostOne(init, id);
      if HasId(data[n], id) {
        forall r | r in init ensures !HasId(r, id) {
          var i :| 0 <= i < |init| && init[i] == r;
          assert !SameId(data[i], data[n]);
        }
        FilterEmpty(init, HasIdOf(id));
      }
    }
  }

  // ---------------------------------------------------------------------------
  // Partial-field merge

  /** The store after merging `patch` into every record whose `_id` matches the patch's. */
  function Updated(data: seq<Record>, patch: Record): seq<Record> {
    seq(|data|, i requires 0 <= i < |data| =>
      if SameId(data[i], patch) then data[i] + patch else data[i])
  }

  /**
   updateData: copies the store and, in every record whose `_id` matches the
   replacement's, overwrites the keys the replacement has, one key at a time.
   */
  method UpdateData(data: seq<Record>, replacementObj: Record) returns (ndata: seq<Record>)
    ensures ndata == Updated(data, replacementObj)
  {
    ndata := data;
    var i := 0;
    while i < |ndata|
      invariant 0 <= i <= |ndata| == |data|
      invariant forall j :: 0 <= j < i ==> ndata[j] == Updated(data, replacementObj)[j]
      invariant forall j :: i <= j < |data| ==> ndata[j] == data[j]
    {
      if SameId(ndata[i], replacementObj) {
        var obj := ndata[i];
        var keys := replacementObj.Keys;
        while keys != {}
          invariant keys <= replacementObj.Keys
          invariant obj.Keys == data[i].Keys + (replacementObj.Keys - keys)
          invariant forall k :: k in obj ==>
            obj[k] == if k in replacementObj && k !in keys then replacementObj[k] else data[i][k]
          decreases keys
        {
          var k :| k in keys;
          obj := obj[k := replacementObj[k]];
          keys := keys - {k};
        }
        assert obj == data[i] + replacementObj;
        ndata := ndata[i := obj];
      }
      i := i + 1;
    }
  }

  /** The merge keeps the length of the store and leaves records with another `_id` as they were. */
  lemma UpdatedFrame(data: seq<Record>, patch: Record)
    ensures |Updated(data, patch)| == |data|
    ensures forall i :: 0 <= i < |data| && !SameId(data[i], patch) ==> Updated(data, patch)[i] == data[i]
  {
  }

  /**
   In a matching record the merge sets every key of the patch to the patch's
   value, keeps every other key's value, and adds no other key.
   */
  lemma UpdatedMerge(data: seq<Record>, patch: Record, i: nat)
    requires i < |data| && SameId(data[i], patch)
    ensures Updated(data, patch)[i].Keys == data[i].Keys + patch.Keys
    ensures forall k :: k in patch ==> Updated(data, patch)[i][k] == patch[k]
    ensures forall k :: k in data[i] && k !in patch ==> Updated(data, patch)[i][k] == data[i][k]
  {
  }

  /** The merge never changes a record's `_id`. */
  lemma UpdatedKeepsIds(data: seq<Record>, patch: Record)
    ensures |Updated(data, patch)| == |data|
    ensures forall i :: 0 <= i < |data| ==> Field(Updated(data, patch)[i], ID_KEY) == Field(data[i], ID_KEY)
  {
  }

  /** A patch holding no key but `_id` changes nothing. */
  lemma UpdatedIdOnlyIsIdentity(data: seq<Record>, patch: Record)
    requires patch.Keys <= {ID_KEY}
    ensures Updated(data, patch) == data
  {
    forall i | 0 <= i < |data| && SameId(data[i], patch)
      ensures data[i] + patch == data[i]
    {
      assert Field(data[i], ID_KEY) == Field(patch, ID_KEY);
    }
  }

  /** Merging the same patch a second time changes nothing more. */
  lemma UpdatedIdempotent(data: seq<Record>, patch: Record)
    ensures Updated(Updated(data, patch), patch) == Updated(data, patch)
  {
    var once := Updated(data, patch);
    forall i | 0 <= i < |data|
      ensures Updated(once, patch)[i] == once[i]
    {
      assert Field(once[i], ID_KEY) == Field(data[i], ID_KEY);
      if SameId(data[i], patch) {
        assert once[i] + patch == (data[i] + patch) + patch == data[i] + patch;
      }
    }
  }

  /**
   test_updateData: merging {_id:"1", additional_attr:"A"} and then
   {_id:"2", val:"4"} into [{_id:"1", val:"1"}, {_id:"2", val:"2"}] updates both
   records. The source writes the second `_id` as the number 2, which loose
   equality matches against "2"; normalised to a string it is "2" here.
   */
  method TestUpdateData() returns (pass: bool)
    ensures pass
  {
    var d := [map["_id" := "1", "val" := "1"], map["_id" := "2", "val" := "2"]];
    var d2 := UpdateData(d, map["_id" := "1", "additional_attr" := "A"]);
    var d3 := UpdateData(d2, map["_id" := "2", "val" := "4"]);
    var expected := [map["_id" := "1", "val" := "1", "additional_attr" := "A"], map["_id" := "2", "val" := "4"]];
    assert d3[0] == expected[0];
    assert d3[1] == expected[1];
    pass := d3 == expected;
  }

  // ---------------------------------------------------------------------------
  // Insert, upsert, delete

  /** A record whose `_id` is the creation sentinel receives a fresh id on insert. */
  predicate IsCreation(newObject: Record) {
    Field(newObject, ID_KEY) == Some(CREATION_SENTINEL)
  }

  /** The record insertData appends when the id counter stands at `counter`. */
  function Stamped(newObject: Record, counter: nat): Record {
    if IsCreation(newObject) then newObject[ID_KEY := NatToString(counter + 1)] else newObject
  }

  /** The store insertData returns. */
  function Inserted(data: seq<Record>, newObject: Record, counter: nat): seq<Record> {
    data + [Stamped(newObject, counter)]
  }

  /** The id counter after insertData. */
  function CounterAfterInsert(newObject: Record, counter: nat): nat {
    if IsCreation(newObject) then counter + 1 else counter
  }

  /**
   Inserting appends exactly one record and keeps the old store as its prefix.
   The new record has the keys and values of `newObject`, except that a
   creation sentinel `_id` becomes the id `counter + 1` in decimal.
   */
  lemma InsertedAppendsOne(data: seq<Record>, newObject: Record, counter: nat)
    ensures var r := Inserted(data, newObject, counter);
      && |r| == |data| + 1
      && r[..|data|] == data
      && r[|data|].Keys == newObject.Keys
      && (forall k :: k in newObject && k != ID_KEY ==> r[|data|][k] == newObject[k])
      && (IsCreation(newObject) ==> HasId(r[|data|], NatToString(counter + 1)))
      && (!IsCreation(newObject) ==> r[|data|] == newObject)
  {
  }

  /** The id a creation receives differs from every id issued before, and from the sentinel. */
  lemma StampedIdIsFresh(newObject: Record, counter: nat)
    requires IsCreation(newObject)
    ensures forall k :: 1 <= k <= counter ==> !HasId(Stamped(newObject, counter), NatToString(k))
    ensures !IsCreation(Stamped(newObject, counter))
  {
    forall k | 1 <= k <= counter
      ensures NatToString(k) != NatToString(counter + 1)
    {
      NatToStringInjective(k, counter + 1);
    }
    assert CREATION_SENTINEL == NatToString(0);
    NatToStringInjective(0, counter + 1);
  }

  /** No record of the store has the `_id` of `dobj`. */
  predicate IsNew(data: seq<Record>, dobj: Record) {
    Filter(data, SameIdAs(dobj)) == []
  }

  /** The store upsertData leaves behind. */
  function Upserted(data: seq<Record>, dobj: Record, counter: nat): seq<Record> {
    if IsNew(data, dobj) then Inserted(data, dobj, counter) else Updated(data, dobj)
  }

  /** The id counter after upsertData. */
  function CounterAfterUpsert(data: seq<Record>, dobj: Record, counter: nat): nat {
    if IsNew(data, dobj) then CounterAfterInsert(dobj, counter) else counter
  }

  /**
   Upsert grows the store by one exactly when no record has the `_id` of
   `dobj`; otherwise it keeps the length and merges as updateData does.
   */
  lemma UpsertedShape(data: seq<Record>, dobj: Record, counter: nat)
    ensures (forall r :: r in data ==> !SameId(r, dobj)) ==>
      Upserted(data, dobj, counter) == Inserted(data, dobj, counter)
    ensures (exists r :: r in data && SameId(r, dobj)) ==>
      Upserted(data, dobj, counter) == Updated(data, dobj)
    ensures |Upserted(data, dobj, counter)| == |data| + 1 <==> forall r :: r in data ==> !SameId(r, dobj)
    ensures (exists r :: r in data && SameId(r, dobj)) ==> |Upserted(data, dobj, counter)| == |data|
  {
    FilterEmpty(data, SameIdAs(dobj));
  }

  /**
   Upsert keeps ids unique, provided that a creation's fresh id is not
   already in use (ids inserted verbatim may collide with later fresh ones).
   */
  lemma UpsertKeepsIdsUnique(data: seq<Record>, dobj: Record, counter: nat)
    requires IdsUnique(data)
    requires IsCreation(dobj) ==> forall r :: r in data ==> !HasId(r, NatToString(counter + 1))
    ensures IdsUnique(Upserted(data, dobj, counter))
  {
    var r := Upserted(data, dobj, counter);
    FilterEmpty(data, SameIdAs(dobj));
    if IsNew(data, dobj) {
      var s := Stamped(dobj, counter);
      forall i | 0 <= i < |data| ensures !SameId(data[i], s) {
        assert data[i] in data;
      }
      forall i, j | 0 <= i < j < |r| ensures !SameId(r[i], r[j]) {
        assert r[i] == data[i];
        if j < |data| {
          assert r[j] == data[j];
        }
      }
    } else {
      UpdatedKeepsIds(data, dobj);
    }
  }

  /**
   Without that proviso ids can collide: a record inserted verbatim with
   `_id` "1" into an empty store leaves the counter at 0, so the next creation
   is stamped "1" as well.
   */
  lemma VerbatimIdCollidesWithFreshId()
    ensures var first := Upserted([], map[ID_KEY := "1"], 0);
      && CounterAfterUpsert([], map[ID_KEY := "1"], 0) == 0
      && !IdsUnique(Upserted(first, map[ID_KEY := CREATION_SENTINEL], 0))
  {
    var a: Record := map[ID_KEY := "1"];
    var c: Record := map[ID_KEY := CREATION_SENTINEL];
    assert Filter([a], SameIdAs(c)) == [] by {
      assert [a][..0] == [];
    }
    assert NatToString(1) == "1";
    var r := Upserted([a], c, 0);
    assert r == [a, c[ID_KEY := "1"]];
    assert SameId(r[0], r[1]);
  }

  /** The store deleteById leaves behind: every record with another `_id`, in order. */
  function Deleted(data: seq<Record>, objId: string): seq<Record> {
    Filter(data, HasOtherId(objId))
  }

  /**
   Delete removes every record with the given `_id`, keeps every other record,
   and removes as many records as a lookup by that id finds.
   */
  lemma DeletedContents(data: seq<Record>, objId: string)
    ensures forall r :: r in Deleted(data, objId) <==> r in data && !HasId(r, objId)
    ensures |Deleted(data, objId)| + |GetDataById(data, objId)| == |data|
  {
    FilterMembers(data, HasOtherId(objId));
    FilterComplementLength(data, HasIdOf(objId), HasOtherId(objId));
  }

  /** Deleting twice by the same id is deleting once. */
  lemma DeletedIdempotent(data: seq<Record>, objId: string)
    ensures Deleted(Deleted(data, objId), objId) == Deleted(data, objId)
  {
    FilterIdempotent(data, HasOtherId(objId));
  }

  /** Upserting a record with a new, non-sentinel id and then deleting that id restores the store. */
  lemma DeleteUndoesInsert(data: seq<Record>, dobj: Record, id: string, counter: nat)
    requires HasId(dobj, id) && !IsCreation(dobj)
    requires forall r :: r in data ==> !HasId(r, id)
    ensures Deleted(Upserted(data, dobj, counter), id) == data
  {
    FilterEmpty(data, SameIdAs(dobj));
    FilterAppend(data, [dobj], HasOtherId(id));
    FilterAllKept(data, HasOtherId(id));
    assert Filter([dobj], HasOtherId(id)) == [] by {
      assert [dobj][..0] == [];
    }
  }

  /** A form reading supplies `_id` "-1" and `_type` "notype" for fields the form lacks. */
  function WithFormDefaults(entries: Record): (dobj: Record)
    ensures ID_KEY !in entries ==> HasId(dobj, FORM_NO_ID)
    ensures TYPE_KEY !in entries ==> Field(dobj, TYPE_KEY) == Some(FORM_NO_TYPE)
    ensures forall k :: k in entries ==> k in dobj && dobj[k] == entries[k]
    ensures dobj.Keys == entries.Keys + {ID_KEY, TYPE_KEY}
  {
    var withId := if ID_KEY in entries then entries else entries[ID_KEY := FORM_NO_ID];
    if TYPE_KEY in withId then withId else withId[TYPE_KEY := FORM_NO_TYPE]
  }

  /**
   The form's default `_id` "-1" is not the creation sentinel "0": the first
   form without an `_id` field is stored under the id "-1" without drawing a
   fresh id, and a second such form is merged into that record instead of
   being inserted.
   */
  lemma FormDefaultIdIsNotCreation(first: Record, second: Record, counter: nat)
    requires ID_KEY !in first && ID_KEY !in second
    ensures var a := WithFormDefaults(first);
      var b := WithFormDefaults(second);
      var once := Upserted([], a, counter);
      && once == [a]
      && CounterAfterUpsert([], a, counter) == counter
      && Upserted(once, b, counter) == [a + b]
  {
  }

  // ---------------------------------------------------------------------------
  // Per-form default cache

  /** The form cache after getModelFromForm: an entry is written only when absent. */
  function Cached(model: map<string, Option<Record>>, formId: string, extracted: Option<Record>)
    : map<string, Option<Record>>
  {
    if formId in model then model else model[formId := extracted]
  }

  /**
   Caching adds the form's entry when it is missing and never overwrites an
   entry that is present; a second call with any reading changes nothing.
   */
  lemma CachedWriteOnce(model: map<string, Option<Record>>, formId: string,
                        extracted: Option<Record>, later: Option<Record>)
    ensures var m := Cached(model, formId, extracted);
      && m.Keys == model.Keys + {formId}
      && (forall f :: f in model ==> m[f] == model[f])
      && (formId !in model ==> m[formId] == extracted)
      && Cached(m, formId, later) == m
  {
  }

  // ---------------------------------------------------------------------------
  // The process-wide state: `data`, `id_counter` and `model`

  class Store {
    var data: seq<Record>
    var idCounter: nat
    var model: map<string, Option<Record>>
    /** How many times trigger_on_data_mutation has been called. */
    ghost var notifications: nat

    constructor ()
      ensures data == [] && idCounter == 0 && model == map[] && notifications == 0
    {
      data := [];
      idCounter := 0;
      model := map[];
      notifications := 0;
    }

    /** The ids getId has handed out so far. */
    ghost function Issued(): set<string>
      reads this
    {
      set k: nat | 1 <= k <= idCounter :: NatToString(k)
    }

    /** getId: increments the counter and returns its new value in decimal, an id never issued before. */
    method GetId() returns (id: string)
      modifies this`idCounter
      ensures idCounter == old(idCounter) + 1
      ensures id == NatToString(idCounter)
      ensures AllDigits(id) && ParseDecimal(id) == idCounter
      ensures id !in old(Issued())
      ensures Issued() == old(Issued()) + {id}
    {
      idCounter := idCounter + 1;
      id := NatToString(idCounter);
      ParseNatToString(idCounter);
      forall k: nat | 1 <= k < idCounter
        ensures NatToString(k) != id
      {
        NatToStringInjective(k, idCounter);
      }
    }

    /**
     insertData: appends `newObject` to a copy of `data`, first giving it a
     fresh id from getId when its `_id` is the creation sentinel. A missing
     `_id` is only reported, and the record is appended all the same.
     */
    method InsertData(data: seq<Record>, newObject: Record) returns (ndata: seq<Record>)
      modifies this`idCounter
      ensures ndata == Inserted(data, newObject, old(idCounter))
      ensures idCounter == CounterAfterInsert(newObject, old(idCounter))
    {
      ndata := data;
      var obj := newObject;
      if Field(obj, ID_KEY) == Some(CREATION_SENTINEL) {
        var id := GetId();
        obj := obj[ID_KEY := id];
      }
      ndata := ndata + [obj];
    }

    /** upsertData: inserts `dobj` when no record has its `_id`, merges it otherwise, then notifies. */
    method UpsertData(dobj: Record)
      modifies this`data, this`idCounter, this`notifications
      ensures data == Upserted(old(data), dobj, old(idCounter))
      ensures idCounter == CounterAfterUpsert(old(data), dobj, old(idCounter))
      ensures notifications == old(notifications) + 1
    {
      var objs := GetData(data, SameIdAs(dobj));
      if |objs| == 0 {
        data := InsertData(data, dobj);
      } else {
        data := UpdateData(data, dobj);
      }
      notifications := notifications + 1;
    }

    /** deleteById: keeps every record whose `_id` is not `objId`, in order, then notifies. */
    method DeleteById(objId: string)
      modifies this`data, this`notifications
      ensures data == Deleted(old(data), objId)
      ensures notifications == old(notifications) + 1
    {
      var src := data;
      var ndata := [];
      var i := 0;
      while i < |src|
        invariant 0 <= i <= |src|
        invariant ndata == Filter(src[..i], HasOtherId(objId))
        invariant notifications == old(notifications)
      {
        var dobj := src[i];
        assert src[..i + 1] == src[..i] + [dobj];
        FilterSnoc(src[..i], dobj, HasOtherId(objId));
        if Field(dobj, ID_KEY) != Some(objId) {
          ndata := ndata + [dobj];
        }
        i := i + 1;
      }
      assert src[..i] == src;
      data := ndata;
      notifications := notifications + 1;
    }

    /**
     getModelFromForm: caches the reading of form `formId` unless an entry for
     it exists. `extracted` is what getDOFromFormById reads from the document
     (None when the document has no such form, which is cached as well).
     */
    method GetModelFromForm(formId: string, extracted: Option<Record>)
      modifies this`model
      ensures model == Cached(old(model), formId, extracted)
    {
      if formId in model {
        // already cached
      } else {
        model := model[formId := extracted];
      }
    }
  }
}
