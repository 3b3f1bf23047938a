/**
 The reference queries that feed the association form's drop-downs: the
 `[_id, name]` pairs of the store's users and of its resources.
 */
module SuiDynFn {
  import opened Filtering
  import opened SmallUi

  /** The pair `[dobj._id, dobj.name]`; either side is `undefined` (None) when the key is absent. */
  datatype Ref = Ref(id: Option<string>, name: Option<string>)

  const NAME_KEY: string := "name"
  const USER_TYPE: string := "user"
  const RESOURCE_TYPE: string := "resource"

  function RefOf(dobj: Record): Ref {
    Ref(Field(dobj, ID_KEY), Field(dobj, NAME_KEY))
  }

  /** `dobj._type == t`. */
  predicate HasType(dobj: Record, t: string) {
    Field(dobj, TYPE_KEY) == Some(t)
  }

  function OfType(t: string): Record -> bool {
    dobj => HasType(dobj, t)
  }

  /** `data.filter(dobj => dobj._type == t).map(dobj => [dobj._id, dobj.name])`. */
  function RefsOfType(data: seq<Record>, t: string): seq<Ref> {
    var f := Filter(data, OfType(t));
    seq(|f|, i requires 0 <= i < |f| => RefOf(f[i]))
  }

  /**
   The references are one pair per record of type `t`, in store order: the
   pair at position `k` is `[_id, name]` of the record at the strictly
   increasing position `idx[k]`, and `idx` holds every record of type `t` and
   no other.
   */
  lemma RefsOfTypeSelect(data: seq<Record>, t: string) returns (idx: seq<nat>)
    ensures |idx| == |RefsOfType(data, t)| <= |data|
    ensures forall k :: 0 <= k < |idx| ==> idx[k] < |data| && RefsOfType(data, t)[k] == RefOf(data[idx[k]])
    ensures forall k, l :: 0 <= k < l < |idx| ==> idx[k] < idx[l]
    ensures forall j :: 0 <= j < |data| ==> (HasType(data[j], t) <==> j in idx)
  {
    idx := FilterIndices(data, OfType(t));
  }

  /** A pair is among the references exactly when some record of type `t` produces it. */
  lemma RefsOfTypeMembers(data: seq<Record>, t: string)
    ensures forall ref :: ref in RefsOfType(data, t) <==>
      exists dobj :: dobj in data && HasType(dobj, t) && RefOf(dobj) == ref
  {
    var f := Filter(data, OfType(t));
    FilterMembers(data, OfType(t));
    forall ref | ref in RefsOfType(data, t)
      ensures exists dobj :: dobj in data && HasType(dobj, t) && RefOf(dobj) == ref
    {
      var i :| 0 <= i < |f| && RefsOfType(data, t)[i] == ref;
      assert f[i] in f;
    }
    forall ref | exists dobj :: dobj in data && HasType(dobj, t) && RefOf(dobj) == ref
      ensures ref in RefsOfType(data, t)
    {
      var dobj :| dobj in data && HasType(dobj, t) && RefOf(dobj) == ref;
      assert dobj in f;
      var i :| 0 <= i < |f| && f[i] == dobj;
      assert RefsOfType(data, t)[i] == ref;
    }
  }

  /** The references of two stores laid end to end are the references of each, in that order. */
  lemma RefsOfTypeAppend(a: seq<Record>, b: seq<Record>, t: string)
    ensures RefsOfType(a + b, t) == RefsOfType(a, t) + RefsOfType(b, t)
  {
    FilterAppend(a, b, OfType(t));
  }

  /** A record of another type contributes nothing, wherever it stands in the store. */
  lemma RefsOfTypeIgnoresOthers(a: seq<Record>, dobj: Record, b: seq<Record>, t: string)
    requires !HasType(dobj, t)
    ensures RefsOfType(a + [dobj] + b, t) == RefsOfType(a + b, t)
  {
    RefsOfTypeAppend(a + [dobj], b, t);
    RefsOfTypeAppend(a, [dobj], t);
    RefsOfTypeAppend(a, b, t);
    assert [dobj][..0] == [];
  }

  /** getUserRefs: the `[_id, name]` pairs of the users, one per user record. */
  function GetUserRefs(data: seq<Record>): (refs: seq<Ref>)
    ensures |refs| <= |data|
    ensures forall ref :: ref in refs <==>
      exists dobj :: dobj in data && HasType(dobj, USER_TYPE) && RefOf(dobj) == ref
  {
    RefsOfTypeMembers(data, USER_TYPE);
    RefsOfType(data, USER_TYPE)
  }

  /** getResourceRefs: the `[_id, name]` pairs of the resources, one per resource record. */
  function GetResourceRefs(data: seq<Record>): (refs: seq<Ref>)
    ensures |refs| <= |data|
    ensures forall ref :: ref in refs <==>
      exists dobj :: dobj in data && HasType(dobj, RESOURCE_TYPE) && RefOf(dobj) == ref
  {
    RefsOfTypeMembers(data, RESOURCE_TYPE);
    RefsOfType(data, RESOURCE_TYPE)
  }

  /** The sample store that testdata.js loads. */
  const TEST_DATA: seq<Record> := [
    map["_id" := "1", "_type" := "user", "name" := "nubj", "loginpassword" := "hello123",
        "usertype" := "internal", "user_status" := "active", "description" := ""],
    map["_id" := "2", "_type" := "resource", "name" := "Organisation A"],
    map["_id" := "3", "_type" := "user", "name" := "keema", "loginpassword" := "sskal",
        "usertype" := "internal", "user_status" := "active", "description" := "Some notes."],
    map["_id" := "4", "_type" := "resource", "name" := "Access Building 32"],
    map["_id" := "5", "_type" := "association", "name" := "assoc-1", "userref" := "1", "resourceref" := "2"],
    map["_id" := "6", "_type" := "association", "name" := "assoc-2", "userref" := "3", "resourceref" := "2"],
    map["_id" := "7", "_type" := "association", "name" := "assoc-3", "userref" := "3", "resourceref" := "4"],
    map["_id" := "8", "_type" := "resource", "name" := "Access Building 34"],
    map["_id" := "9", "_type" := "association", "name" := "assoc-4", "userref" := "1", "resourceref" := "8"]
  ]

  /** The `_type`, `_id` and `name` of each sample record. */
  lemma TestDataFields()
    ensures |TEST_DATA| == 9
    ensures Field(TEST_DATA[0], TYPE_KEY) == Some("user") && RefOf(TEST_DATA[0]) == Ref(Some("1"), Some("nubj"))
    ensures Field(TEST_DATA[1], TYPE_KEY) == Some("resource") && RefOf(TEST_DATA[1]) == Ref(Some("2"), Some("Organisation A"))
    ensures Field(TEST_DATA[2], TYPE_KEY) == Some("user") && RefOf(TEST_DATA[2]) == Ref(Some("3"), Some("keema"))
    ensures Field(TEST_DATA[3], TYPE_KEY) == Some("resource") && RefOf(TEST_DATA[3]) == Ref(Some("4"), Some("Access Building 32"))
    ensures Field(TEST_DATA[4], TYPE_KEY) == Some("association") && RefOf(TEST_DATA[4]) == Ref(Some("5"), Some("assoc-1"))
    ensures Field(TEST_DATA[5], TYPE_KEY) == Some("association") && RefOf(TEST_DATA[5]) == Ref(Some("6"), Some("assoc-2"))
    ensures Field(TEST_DATA[6], TYPE_KEY) == Some("association") && RefOf(TEST_DATA[6]) == Ref(Some("7"), Some("assoc-3"))
    ensures Field(TEST_DATA[7], TYPE_KEY) == Some("resource") && RefOf(TEST_DATA[7]) == Ref(Some("8"), Some("Access Building 34"))
    ensures Field(TEST_DATA[8], TYPE_KEY) == Some("association") && RefOf(TEST_DATA[8]) == Ref(Some("9"), Some("assoc-4"))
  {
  }

  /** On the sample store the user drop-down lists the two users, in store order. */
  lemma TestDataUserRefs()
    ensures GetUserRefs(TEST_DATA) == [Ref(Some("1"), Some("nubj")), Ref(Some("3"), Some("keema"))]
  {
    var d := TEST_DATA;
    var user := OfType(USER_TYPE);
    TestDataFields();
    assert d[..0] == [] && d[..|d|] == d;
    assert Filter(d[..1], user) == [d[0]] by {
      FilterPrefixStep(d, 0, user);
    }
    assert Filter(d[..2], user) == [d[0]] by {
      FilterPrefixStep(d, 1, user);
    }
    assert Filter(d[..3], user) == [d[0], d[2]] by {
      FilterPrefixStep(d, 2, user);
    }
    assert Filter(d[..4], user) == [d[0], d[2]] by {
      FilterPrefixStep(d, 3, user);
    }
    assert Filter(d[..5], user) == [d[0], d[2]] by {
      FilterPrefixStep(d, 4, user);
    }
    assert Filter(d[..6], user) == [d[0], d[2]] by {
      FilterPrefixStep(d, 5, user);
    }
    assert Filter(d[..7], user) == [d[0], d[2]] by {
      FilterPrefixStep(d, 6, user);
    }
    assert Filter(d[..8], user) == [d[0], d[2]] by {
      FilterPrefixStep(d, 7, user);
    }
    assert Filter(d[..9], user) == [d[0], d[2]] by {
      FilterPrefixStep(d, 8, user);
    }
    assert GetUserRefs(d) == [RefOf(d[0]), RefOf(d[2])];
  }

  /** On the sample store the resource drop-down lists the three resources, in store order. */
  lemma TestDataResourceRefs()
    ensures GetResourceRefs(TEST_DATA) == [Ref(Some("2"), Some("Organisation A")),
      Ref(Some("4"), Some("Access Building 32")), Ref(Some("8"), Some("Access Building 34"))]
  {
    var d := TEST_DATA;
    var resource := OfType(RESOURCE_TYPE);
    TestDataFields();
    assert d[..0] == [] && d[..|d|] == d;
    assert Filter(d[..1], resource) == [] by {
      FilterPrefixStep(d, 0, resource);
    }
    assert Filter(d[..2], resource) == [d[1]] by {
      FilterPrefixStep(d, 1, resource);
    }
    assert Filter(d[..3], resource) == [d[1]] by {
      FilterPrefixStep(d, 2, resource);
    }
    assert Filter(d[..4], resource) == [d[1], d[3]] by {
      FilterPrefixStep(d, 3, resource);
    }
    assert Filter(d[..5], resource) == [d[1], d[3]] by {
      FilterPrefixStep(d, 4, resource);
    }
    assert Filter(d[..6], resource) == [d[1], d[3]] by {
      FilterPrefixStep(d, 5, resource);
    }
    assert Filter(d[..7], resource) == [d[1], d[3]] by {
      FilterPrefixStep(d, 6, resource);
    }
    assert Filter(d[..8], resource) == [d[1], d[3], d[7]] by {
      FilterPrefixStep(d, 7, resource);
    }
    assert Filter(d[..9], resource) == [d[1], d[3], d[7]] by {
      FilterPrefixStep(d, 8, resource);
    }
    assert GetResourceRefs(d) == [RefOf(d[1]), RefOf(d[3]), RefOf(d[7])];
  }
}
