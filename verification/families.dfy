/**
 * The sextupole families of a lattice (cpbd/chromaticity.py): sextupole_id
 * collects them into a dictionary from family id to strength, and the end of
 * compensate_chromaticity writes new strengths back into the sextupoles.
 *
 * The chromaticity code takes its two families in the order of `sex.keys()`,
 * which Python 2 leaves to the hash of the ids. The model fixes that order as
 * insertion order: a dictionary here is the sequence of its keys in insertion
 * order together with the map itself. FamilyOrderIrrelevant shows that the
 * solved strengths do not depend on this choice.
 */
module SextupoleFamilies {
  import opened Wrappers
  import opened Elements

  /** A dictionary with string keys and its keys in insertion order. */
  datatype Dict = Dict(keys: seq<string>, values: map<string, real>)

  /** The keys are distinct and are exactly the keys of the map. */
  ghost predicate ValidDict(d: Dict) {
    && (forall i, j | 0 <= i < j < |d.keys| :: d.keys[i] != d.keys[j])
    && (forall k :: k in d.values <==> k in d.keys)
  }

  /** d[k] = v: a new key goes to the end of the order, an existing one keeps its place. */
  function Put(d: Dict, k: string, v: real): (r: Dict)
    ensures ValidDict(d) ==> ValidDict(r)
    ensures r.values == d.values[k := v]
  {
    Dict(if k in d.values then d.keys else d.keys + [k], d.values[k := v])
  }

  /** A sequence without repeats has as many elements as the set of them. */
  lemma {:induction false} DistinctSize(ks: seq<string>)
    requires forall i, j | 0 <= i < j < |ks| :: ks[i] != ks[j]
    ensures |set k | k in ks| == |ks|
  {
    if |ks| > 0 {
      var init := ks[..|ks| - 1];
      DistinctSize(init);
      assert (set k | k in ks) == (set k | k in init) + {ks[|ks| - 1]};
      assert ks[|ks| - 1] !in init;
    }
  }

  /** A valid dictionary's order lists each of its keys once. */
  lemma ValidDictSize(d: Dict)
    requires ValidDict(d)
    ensures |d.keys| == |d.values.Keys|
  {
    DistinctSize(d.keys);
    assert d.values.Keys == set k | k in d.keys;
  }

  // ---------------------------------------------------------------------------
  // sextupole_id

  /** An element sextupole_id collects: a sextupole, or a multipole of order 3. */
  predicate FamilyMember(d: ElementData) {
    d.kind == Sextupole || (d.kind == Multipole && d.n == 3)
  }

  /** A multipole of order 3 without a coefficient kn[2]: reading it fails. */
  predicate ShortKn(d: ElementData) {
    d.kind == Multipole && d.n == 3 && |d.kn| <= 2
  }

  /** The strength a family member is recorded with: ms of a sextupole, kn[2] of a multipole. */
  function Strength(d: ElementData): real
    requires FamilyMember(d) && !ShortKn(d)
  {
    if d.kind == Sextupole then d.ms else d.kn[2]
  }

  /**
   * The dictionary sextupole_id has built after the first k elements: each family
   * member records its strength under its id, a later one overwriting an earlier
   * one. Failure(i) when element i is a multipole of order 3 without kn[2].
   */
  function FamiliesUpTo(ds: seq<ElementData>, k: nat): Result<Dict, nat>
    requires k <= |ds|
  {
    if k == 0 then Success(Dict([], map[]))
    else
      var prev := FamiliesUpTo(ds, k - 1);
      if prev.Failure? then prev
      else
        var d := ds[k - 1];
        if d.kind == Sextupole then Success(Put(prev.value, d.id, d.ms))
        else if d.kind == Multipole && d.n == 3 then
          (if |d.kn| > 2 then Success(Put(prev.value, d.id, d.kn[2])) else Failure(k - 1))
        else prev
  }

  /** Why sextupole_id gives up. */
  datatype FamilyError =
    | ShortCoefficients(index: nat)   // the IndexError reading kn[2] of element `index`
    | TooFewFamilies(count: nat)      // "Only <count> families of sextupole are found"
    | TooManyFamilies                 // "more than two families of sextupole"

  /** sextupole_id: the families found, provided there are exactly two. */
  function SextupoleIdOf(ds: seq<ElementData>): Result<Dict, FamilyError>
  {
    var found := FamiliesUpTo(ds, |ds|);
    if found.Failure? then Failure(ShortCoefficients(found.error))
    else if |found.value.values.Keys| < 2 then Failure(TooFewFamilies(|found.value.values.Keys|))
    else if |found.value.values.Keys| > 2 then Failure(TooManyFamilies)
    else Success(found.value)
  }

  /** The parameters of the elements, in lattice order. */
  function ParamsOf(lat: seq<Element>): (r: seq<ElementData>)
    reads lat
    ensures |r| == |lat| && forall k {:trigger r[k]} | 0 <= k < |lat| :: r[k] == lat[k].data
  {
    if |lat| == 0 then [] else ParamsOf(lat[..|lat| - 1]) + [lat[|lat| - 1].data]
  }

  /**
   * sextupole_id(lattice): walks the lattice filling the dictionary, then
   * checks that exactly two families were found.
   */
  method SextupoleId(lat: seq<Element>) returns (r: Result<Dict, FamilyError>)
    ensures r == SextupoleIdOf(ParamsOf(lat))
    ensures r.Success? ==> ValidDict(r.value) && |r.value.keys| == 2
  {
    ghost var ds := ParamsOf(lat);
    var sex := Dict([], map[]);
    for i := 0 to |lat|
      invariant FamiliesUpTo(ds, i) == Success(sex)
    {
      var d := lat[i].data;
      if d.kind == Sextupole {
        sex := Put(sex, d.id, d.ms);
      }
      if d.kind == Multipole && d.n == 3 {
        if |d.kn| <= 2 {
          FailureStays(ds, i + 1, |ds|);
          return Failure(ShortCoefficients(i));
        }
        sex := Put(sex, d.id, d.kn[2]);
      }
    }
    FamiliesValid(ds, |ds|);
    var count := |sex.values.Keys|;
    if count < 2 {
      return Failure(TooFewFamilies(count));
    }
    if count > 2 {
      return Failure(TooManyFamilies);
    }
    ValidDictSize(sex);
    r := Success(sex);
  }

  // ---------------------------------------------------------------------------
  // Properties of sextupole_id

  /** Once reading a coefficient has failed, the walk stays failed at that element. */
  lemma {:induction false} FailureStays(ds: seq<ElementData>, k: nat, n: nat)
    requires k <= n <= |ds|
    requires FamiliesUpTo(ds, k).Failure?
    ensures FamiliesUpTo(ds, n) == FamiliesUpTo(ds, k)
    decreases n - k
  {
    if k < n {
      FailureStays(ds, k + 1, n);
    }
  }

  /**
   * The walk fails exactly when some element is a multipole of order 3 without
   * kn[2], and then at the first such element.
   */
  lemma {:induction false} FamiliesFailure(ds: seq<ElementData>, k: nat)
    requires k <= |ds|
    ensures FamiliesUpTo(ds, k).Failure? <==> exists i | 0 <= i < k :: ShortKn(ds[i])
    ensures FamiliesUpTo(ds, k).Failure? ==>
              var i := FamiliesUpTo(ds, k).error;
              i < k && ShortKn(ds[i]) && forall j | 0 <= j < i :: !ShortKn(ds[j])
  {
    if k > 0 {
      FamiliesFailure(ds, k - 1);
      if FamiliesUpTo(ds, k - 1).Success? && ShortKn(ds[k - 1]) {
        assert FamiliesUpTo(ds, k).error == k - 1;
      }
    }
  }

  /**
   * The dictionary is valid and its keys are exactly the ids of the family
   * members among the first k elements.
   */
  lemma {:induction false} FamiliesValid(ds: seq<ElementData>, k: nat)
    requires k <= |ds|
    requires FamiliesUpTo(ds, k).Success?
    ensures ValidDict(FamiliesUpTo(ds, k).value)
    ensures forall key :: key in FamiliesUpTo(ds, k).value.values <==>
                          exists i | 0 <= i < k :: FamilyMember(ds[i]) && ds[i].id == key
  {
    if k > 0 {
      FamiliesValid(ds, k - 1);
      var sex := FamiliesUpTo(ds, k).value;
      forall key
        ensures key in sex.values <==> exists i | 0 <= i < k :: FamilyMember(ds[i]) && ds[i].id == key
      {
        if key in sex.values && !(FamilyMember(ds[k - 1]) && ds[k - 1].id == key) {
          var i :| 0 <= i < k - 1 && FamilyMember(ds[i]) && ds[i].id == key;
        }
      }
    }
  }

  /**
   * A later family member with the same id overwrites an earlier one: the
   * dictionary holds, for each id, the strength of the last member with that id.
   */
  lemma {:induction false} LastMemberWins(ds: seq<ElementData>, k: nat, i: nat)
    requires i < k <= |ds|
    requires FamiliesUpTo(ds, k).Success? && FamilyMember(ds[i])
    requires forall j | i < j < k :: !(FamilyMember(ds[j]) && ds[j].id == ds[i].id)
    ensures !ShortKn(ds[i])
    ensures ds[i].id in FamiliesUpTo(ds, k).value.values
    ensures FamiliesUpTo(ds, k).value.values[ds[i].id] == Strength(ds[i])
  {
    FamiliesFailure(ds, k);
    if i < k - 1 {
      assert FamiliesUpTo(ds, k - 1).Success?;
      LastMemberWins(ds, k - 1, i);
    }
  }

  /** The first family member of the lattice names the first family. */
  lemma {:induction false} FirstMemberFirst(ds: seq<ElementData>, k: nat, i: nat)
    requires i < k <= |ds|
    requires FamiliesUpTo(ds, k).Success? && FamilyMember(ds[i])
    requires forall j | 0 <= j < i :: !FamilyMember(ds[j])
    ensures |FamiliesUpTo(ds, k).value.keys| > 0 && FamiliesUpTo(ds, k).value.keys[0] == ds[i].id
  {
    FamiliesFailure(ds, k);
    if i < k - 1 {
      assert FamiliesUpTo(ds, k - 1).Success?;
      FirstMemberFirst(ds, k - 1, i);
    } else {
      assert FamiliesUpTo(ds, k - 1) == Success(Dict([], map[])) by {
        NoMembersNoFamilies(ds, k - 1);
      }
    }
  }

  /** Before the first family member the dictionary is empty. */
  lemma {:induction false} NoMembersNoFamilies(ds: seq<ElementData>, k: nat)
    requires k <= |ds|
    requires forall j | 0 <= j < k :: !FamilyMember(ds[j])
    ensures FamiliesUpTo(ds, k) == Success(Dict([], map[]))
  {
    if k > 0 {
      NoMembersNoFamilies(ds, k - 1);
    }
  }

  /**
   * sextupole_id succeeds exactly when no order-3 multipole lacks kn[2] and the
   * family members carry exactly two distinct ids; it then names those two.
   */
  lemma SextupoleIdSucceeds(ds: seq<ElementData>)
    ensures SextupoleIdOf(ds).Success? <==>
              && (forall i | 0 <= i < |ds| :: !ShortKn(ds[i]))
              && FamiliesUpTo(ds, |ds|).Success?
              && |FamiliesUpTo(ds, |ds|).value.values.Keys| == 2
    ensures SextupoleIdOf(ds).Success? ==>
              var names := SextupoleIdOf(ds).value.keys;
              && |names| == 2 && names[0] != names[1]
              && forall key :: key in names <==> exists i | 0 <= i < |ds| :: FamilyMember(ds[i]) && ds[i].id == key
  {
    FamiliesFailure(ds, |ds|);
    if FamiliesUpTo(ds, |ds|).Success? {
      FamiliesValid(ds, |ds|);
      ValidDictSize(FamiliesUpTo(ds, |ds|).value);
    }
  }

  // ---------------------------------------------------------------------------
  // The write-back of compensate_chromaticity

  /**
   * An element after the write-back: a sextupole of either family gets the new
   * strength ms, and k2 = ms / l when its length is not zero. Any other element,
   * a multipole of a family included, keeps its parameters.
   */
  function Compensated(d: ElementData, names: seq<string>, stg: map<string, real>): ElementData
    requires |names| == 2 && names[0] in stg && names[1] in stg
  {
    if d.kind == Sextupole && (d.id == names[0] || d.id == names[1]) then
      var ms := stg[d.id];
      d.(ms := ms, k2 := if d.l != 0.0 then ms / d.l else d.k2)
    else d
  }

  /**
   * What the write-back does to one element: the new ms of a family sextupole
   * is the strength of its family, and with a nonzero length k2 * l = ms; its
   * other parameters, and every parameter of any other element, stay.
   */
  lemma CompensatedParameters(d: ElementData, names: seq<string>, stg: map<string, real>)
    requires |names| == 2 && names[0] in stg && names[1] in stg
    ensures var r := Compensated(d, names, stg);
            if d.kind == Sextupole && d.id in names then
              && r.ms == stg[d.id]
              && (d.l != 0.0 ==> r.k2 * d.l == r.ms)
              && (d.l == 0.0 ==> r.k2 == d.k2)
              && r.(ms := d.ms, k2 := d.k2) == d
            else r == d
  {
  }

  /** Writing the strengths back twice is writing them once, so an element listed twice is no problem. */
  lemma CompensatedIdempotent(d: ElementData, names: seq<string>, stg: map<string, real>)
    requires |names| == 2 && names[0] in stg && names[1] in stg
    ensures Compensated(Compensated(d, names, stg), names, stg) == Compensated(d, names, stg)
  {
  }

  /** The lattice parameters after the write-back. */
  function CompensateAll(ds: seq<ElementData>, names: seq<string>, stg: map<string, real>): (r: seq<ElementData>)
    requires |names| == 2 && names[0] in stg && names[1] in stg
    ensures |r| == |ds|
  {
    seq(|ds|, i requires 0 <= i < |ds| => Compensated(ds[i], names, stg))
  }

  /**
   * The write-back loop of compensate_chromaticity: every element of the
   * lattice ends with its write-back applied once, whatever number of times it
   * appears; the maps are not rebuilt here.
   */
  method WriteBack(lat: seq<Element>, names: seq<string>, stg: map<string, real>)
    requires |names| == 2 && names[0] in stg && names[1] in stg
    modifies set e | e in lat
    ensures forall e | e in lat :: e.data == Compensated(old(e.data), names, stg)
    ensures forall e | e in lat :: e.transferMap == old(e.transferMap)
  {
    for i := 0 to |lat|
      invariant forall e | e in lat :: e.data == (if e in lat[..i] then Compensated(old(e.data), names, stg) else old(e.data))
      invariant forall e | e in lat :: e.transferMap == old(e.transferMap)
    {
      var e := lat[i];
      WriteBackElement(e, names, stg);
      CompensatedIdempotent(old(e.data), names, stg);
      assert lat[..i + 1] == lat[..i] + [e];
    }
    assert lat[..|lat|] == lat;
  }

  /** The write-back of one element. */
  method WriteBackElement(e: Element, names: seq<string>, stg: map<string, real>)
    requires |names| == 2 && names[0] in stg && names[1] in stg
    modifies e
    ensures e.data == Compensated(old(e.data), names, stg)
    ensures e.transferMap == old(e.transferMap)
  {
    if e.data.kind == Sextupole {
      if e.data.id == names[0] {
        var ms := stg[e.data.id];
        e.data := e.data.(ms := ms);
        if e.data.l != 0.0 {
          e.data := e.data.(k2 := ms / e.data.l);
        }
      } else if e.data.id == names[1] {
        var ms := stg[e.data.id];
        e.data := e.data.(ms := ms);
        if e.data.l != 0.0 {
          e.data := e.data.(k2 := ms / e.data.l);
        }
      }
    }
  }

  /** A dictionary with its values replaced by those of stg. */
  function Rewritten(sex: Dict, stg: map<string, real>): Dict
  {
    Dict(sex.keys, map key | key in sex.values && key in stg :: stg[key])
  }

  /** Recording stg[id] in the rewritten dictionary is rewriting the dictionary after recording any value under id. */
  lemma PutRewritten(sex: Dict, id: string, v: real, stg: map<string, real>)
    requires id in stg
    ensures Put(Rewritten(sex, stg), id, stg[id]) == Rewritten(Put(sex, id, v), stg)
  {
    assert id in Rewritten(sex, stg).values <==> id in sex.values;
    assert Rewritten(sex, stg).values[id := stg[id]] == Rewritten(Put(sex, id, v), stg).values;
  }

  /**
   * The write-back round trip: when every family member is a sextupole, the
   * families found after the write-back are the same ids, in the same order,
   * now with the strengths that were written.
   */
  lemma {:induction false} CompensationRoundTrip(ds: seq<ElementData>, names: seq<string>, stg: map<string, real>, k: nat)
    requires k <= |ds| && |names| == 2 && names[0] in stg && names[1] in stg
    requires forall i | 0 <= i < |ds| :: !(ds[i].kind == Multipole && ds[i].n == 3)
    requires forall i | 0 <= i < k && FamilyMember(ds[i]) :: ds[i].id in names
    ensures FamiliesUpTo(ds, k).Success?
    ensures FamiliesUpTo(CompensateAll(ds, names, stg), k) == Success(Rewritten(FamiliesUpTo(ds, k).value, stg))
  {
    if k > 0 {
      CompensationRoundTrip(ds, names, stg, k - 1);
      var d := ds[k - 1];
      var d' := CompensateAll(ds, names, stg)[k - 1];
      if d.kind == Sextupole {
        assert d'.kind == Sextupole && d'.id == d.id && d'.ms == stg[d.id];
        PutRewritten(FamiliesUpTo(ds, k - 1).value, d.id, d.ms, stg);
      } else {
        assert d' == d;
      }
    }
  }
}
