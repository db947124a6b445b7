/** A model of `ReadsAlignmentSetInterfaceV1`: the validation and shaping
    that surround saving and fetching a ReadsAlignmentSet. The remote object
    store, the reference-format validator and the generic set interface are
    taken as parameters: `lookup` stands for the store's batch object-info
    call, `checkReference` for the reference-syntax check, `saveReply` and
    `getSet` for what the generic set interface gives back. */
module ReadsAlignmentSetInterface {
  import opened Wrappers
  import opened Strings

  // ---------------------------------------------------------------------
  // Data model
  // ---------------------------------------------------------------------

  /** Every way an operation of the interface can fail. */
  datatype Failure =
    | DataMissing           // `data` absent or null when saving
    | NoItems               // `items` absent or empty
    | ItemWithoutRef        // an item has no "ref" (a KeyError in the source)
    | InfoWithoutGenomeId   // an object's metadata has no "genome_id" (a KeyError)
    | GenomeMismatch        // zero, or more than one, distinct genome id
    | NoSaveInfo            // the set interface returned no object info
    | RefMissing            // `ref` absent or null when fetching
    | RefMalformed          // `ref` fails the reference-format check
    | BadIncludeItemInfo    // `include_item_info` present but neither 0 nor 1

  /** The text Python shows for each failure: the message of a ValueError,
      the quoted missing key of a KeyError, the text of an IndexError. */
  function Message(f: Failure): string {
    match f
    case DataMissing => "\"data\" parameter field required to save a ReadsAlignmentSet"
    case NoItems => "A ReadsAlignmentSet must contain at least one ReadsAlignment reference."
    case ItemWithoutRef => "'ref'"
    case InfoWithoutGenomeId => "'genome_id'"
    case GenomeMismatch => "All ReadsAlignments in the set must be aligned against the same genome reference."
    case NoSaveInfo => "list index out of range"
    case RefMissing => "\"ref\" parameter field specifiying the reads alignment set is required"
    case RefMalformed => "\"ref\" parameter must be a valid workspace reference"
    case BadIncludeItemInfo => "\"include_item_info\" parameter field can only be set to 0 or 1"
  }

  /** One member of a set: the reference of an alignment and its label, each
      of which may be absent from the item's dictionary. */
  datatype Item = Item(ref: Option<string>, itemLabel: Option<string>)

  /** One entry of the reference list sent to the object store: `{"ref": r}`. */
  datatype ObjectSpec = ObjectSpec(ref: string)

  /** The object store's eleven-position object-info tuple, with the
      positions named. */
  datatype ObjectInfo = ObjectInfo(
    objId: int,                  // position 0
    name: string,                // position 1
    typeName: string,            // position 2
    saveDate: string,            // position 3
    version: int,                // position 4
    savedBy: string,             // position 5
    wsId: int,                   // position 6
    wsName: string,              // position 7
    checksum: string,            // position 8
    size: int,                   // position 9
    meta: map<string, string>)   // position 10

  /** What saving returns: the new set's reference and its object info. */
  datatype SaveResult = SaveResult(setRef: string, setInfo: ObjectInfo)

  /** The `data` dictionary of a save request, which validation changes in
      place: it may add a description and fills in item labels. */
  class SetData {
    var description: Option<string>
    var items: Option<array<Item>>

    constructor (description: Option<string>, items: Option<array<Item>>)
      ensures this.description == description && this.items == items
    {
      this.description := description;
      this.items := items;
    }

    /** The array holding the items, if there is one. */
    function ItemsArray(): set<object>
      reads this
    {
      if items.Some? then {items.value} else {}
    }

    /** The items as a value, `None` when the key is absent. */
    function Items(): Option<seq<Item>>
      reads this, ItemsArray()
    {
      if items.Some? then Some(items.value[..]) else None
    }
  }

  // ---------------------------------------------------------------------
  // Save side: the item loop
  // ---------------------------------------------------------------------

  /** An item after label defaulting: a missing label becomes "". */
  function WithLabel(item: Item): Item {
    if item.itemLabel.None? then item.(itemLabel := Some("")) else item
  }

  /** Every item with its label defaulted, in the same order. */
  function WithLabels(items: seq<Item>): (r: seq<Item>)
    ensures |r| == |items|
    ensures forall i :: 0 <= i < |items| ==>
      r[i].ref == items[i].ref &&
      r[i].itemLabel.Some? &&
      (items[i].itemLabel.Some? ==> r[i].itemLabel == items[i].itemLabel) &&
      (items[i].itemLabel.None? ==> r[i].itemLabel == Some(""))
  {
    if items == [] then [] else [WithLabel(items[0])] + WithLabels(items[1..])
  }

  /** The index of the first item without a reference, or the number of
      items when every item has one. */
  function FirstMissingRef(items: seq<Item>): (k: nat)
    ensures k <= |items|
    ensures forall i :: 0 <= i < k ==> items[i].ref.Some?
    ensures k < |items| ==> items[k].ref.None?
  {
    if items == [] || items[0].ref.None? then 0 else 1 + FirstMissingRef(items[1..])
  }

  predicate AllHaveRefs(items: seq<Item>) {
    forall i :: 0 <= i < |items| ==> items[i].ref.Some?
  }

  /** The reference list sent to the object store, one entry per item. */
  function RefList(items: seq<Item>): (specs: seq<ObjectSpec>)
    requires AllHaveRefs(items)
    ensures |specs| == |items|
    ensures forall i :: 0 <= i < |items| ==> Some(specs[i].ref) == items[i].ref
  {
    seq(|items|, i requires 0 <= i < |items| => ObjectSpec(items[i].ref.value))
  }

  /** The items once the loop has run: labels are defaulted up to the first
      item without a reference, where the loop stops. */
  function LabelledItems(items: Option<seq<Item>>): (r: Option<seq<Item>>)
    ensures r.Some? <==> items.Some?
    ensures r.Some? ==> |r.value| == |items.value|
    ensures r.Some? ==> forall i :: 0 <= i < |items.value| ==>
        r.value[i].ref == items.value[i].ref &&
        r.value[i].itemLabel ==
          (if i < FirstMissingRef(items.value) && items.value[i].itemLabel.None? then Some("")
           else items.value[i].itemLabel)
  {
    match items
    case None => None
    case Some(s) =>
      var k := FirstMissingRef(s);
      Some(WithLabels(s[..k]) + s[k..])
  }

  /** The reference list the validator sends, or None when it fails before
      contacting the store. */
  function WorkspaceRequest(items: Option<seq<Item>>): (r: Option<seq<ObjectSpec>>)
    ensures r.Some? <==> items.Some? && |items.value| > 0 && FirstMissingRef(items.value) == |items.value|
    ensures r.Some? ==> |r.value| == |items.value|
    ensures r.Some? ==> forall i :: 0 <= i < |r.value| ==> Some(r.value[i].ref) == items.value[i].ref
  {
    if items.None? || |items.value| == 0 || !AllHaveRefs(items.value) then None
    else Some(RefList(items.value))
  }

  // ---------------------------------------------------------------------
  // Save side: the genome check
  // ---------------------------------------------------------------------

  const GenomeIdKey := "genome_id"

  /** The set of `genome_id` values across the object infos, or None when
      some info's metadata lacks the key. */
  function GenomeIds(infos: seq<ObjectInfo>): (r: Option<set<string>>)
    ensures r.Some? <==> forall i :: 0 <= i < |infos| ==> GenomeIdKey in infos[i].meta
    ensures r.Some? ==> forall g :: g in r.value <==>
      exists i :: 0 <= i < |infos| && infos[i].meta[GenomeIdKey] == g
  {
    if infos == [] then Some({})
    else if GenomeIdKey !in infos[0].meta then None
    else match GenomeIds(infos[1..])
      case None => None
      case Some(rest) => Some({infos[0].meta[GenomeIdKey]} + rest)
  }

  /** Passes exactly when the infos name one distinct genome. */
  function GenomeCheck(infos: seq<ObjectInfo>): Outcome<Failure> {
    match GenomeIds(infos)
    case None => Fail(InfoWithoutGenomeId)
    case Some(ids) => if |ids| == 1 then Pass else Fail(GenomeMismatch)
  }

  predicate SameGenome(infos: seq<ObjectInfo>)
    requires forall i :: 0 <= i < |infos| ==> GenomeIdKey in infos[i].meta
  {
    forall i, j :: 0 <= i < |infos| && 0 <= j < |infos| ==>
      infos[i].meta[GenomeIdKey] == infos[j].meta[GenomeIdKey]
  }

  lemma SingletonOfSizeOne(s: set<string>, g: string)
    requires |s| == 1 && g in s
    ensures s == {g}
  {
    var rest := s - {g};
    assert s == rest + {g};
    assert |rest| == 0;
  }

  /** Infos that all carry the same genome id yield exactly that id. */
  lemma {:induction false} SameGenomeGivesSingleton(infos: seq<ObjectInfo>)
    requires |infos| > 0
    requires forall i :: 0 <= i < |infos| ==> GenomeIdKey in infos[i].meta
    requires SameGenome(infos)
    ensures GenomeIds(infos) == Some({infos[0].meta[GenomeIdKey]})
  {
    var g := infos[0].meta[GenomeIdKey];
    var ids := GenomeIds(infos).value;
    forall x | x in ids ensures x == g {
      var i :| 0 <= i < |infos| && infos[i].meta[GenomeIdKey] == x;
      assert infos[i].meta[GenomeIdKey] == infos[0].meta[GenomeIdKey];
    }
    assert g in ids;
    assert ids == {g};
  }

  /** The genome check passes if and only if there is at least one info,
      every info carries a genome id, and they all carry the same one. */
  lemma GenomeCheckPassesIff(infos: seq<ObjectInfo>)
    ensures GenomeCheck(infos) == Pass <==>
      |infos| > 0 &&
      (forall i :: 0 <= i < |infos| ==> GenomeIdKey in infos[i].meta) &&
      SameGenome(infos)
  {
    var ids := GenomeIds(infos);
    if GenomeCheck(infos) == Pass {
      var g :| g in ids.value;
      SingletonOfSizeOne(ids.value, g);
      assert |infos| > 0 by {
        var i :| 0 <= i < |infos| && infos[i].meta[GenomeIdKey] == g;
      }
      forall i | 0 <= i < |infos|
        ensures infos[i].meta[GenomeIdKey] == g
      {
        assert infos[i].meta[GenomeIdKey] in ids.value;
      }
    }
    if |infos| > 0 && ids.Some? && SameGenome(infos) {
      SameGenomeGivesSingleton(infos);
      assert |{infos[0].meta[GenomeIdKey]}| == 1;
    }
  }

  /** Two alignments against genomes "G1" and "G2" are rejected. */
  lemma GenomeMismatchExample(a: ObjectInfo, b: ObjectInfo)
    requires a.meta == map[GenomeIdKey := "G1"] && b.meta == map[GenomeIdKey := "G2"]
    ensures GenomeCheck([a, b]) == Fail(GenomeMismatch)
  {
    GenomeCheckPassesIff([a, b]);
    assert [a, b][0].meta[GenomeIdKey] != [a, b][1].meta[GenomeIdKey];
  }

  /** What validation decides, from the items as they were on entry and the
      object store's answer to the reference list. */
  function ValidationOutcome(items: Option<seq<Item>>, lookup: seq<ObjectSpec> -> seq<ObjectInfo>)
    : Outcome<Failure>
  {
    if items.None? || |items.value| == 0 then Fail(NoItems)
    else if !AllHaveRefs(items.value) then Fail(ItemWithoutRef)
    else GenomeCheck(lookup(RefList(items.value)))
  }

  /** Validation accepts exactly a non-empty list of items that all have
      references and whose objects all name one and the same genome. */
  lemma ValidationPassesIff(items: Option<seq<Item>>, lookup: seq<ObjectSpec> -> seq<ObjectInfo>)
    ensures ValidationOutcome(items, lookup) == Pass <==>
      items.Some? && |items.value| > 0 && AllHaveRefs(items.value) &&
      var infos := lookup(RefList(items.value));
      |infos| > 0 &&
      (forall i :: 0 <= i < |infos| ==> GenomeIdKey in infos[i].meta) &&
      SameGenome(infos)
  {
    if items.Some? && |items.value| > 0 && AllHaveRefs(items.value) {
      GenomeCheckPassesIff(lookup(RefList(items.value)));
    }
  }

  /** After a successful validation the items are the same references in
      the same order, and every one of them has a label: the old one when it
      had one, "" when it had none. */
  lemma LabelsAfterValidation(items: seq<Item>, lookup: seq<ObjectSpec> -> seq<ObjectInfo>)
    requires ValidationOutcome(Some(items), lookup) == Pass
    ensures LabelledItems(Some(items)).Some?
    ensures var after := LabelledItems(Some(items)).value;
      |after| == |items| &&
      forall i :: 0 <= i < |items| ==>
        after[i].ref == items[i].ref &&
        after[i].itemLabel == (if items[i].itemLabel.None? then Some("") else items[i].itemLabel)
  {
    var k := FirstMissingRef(items);
    assert k == |items|;
    assert items[..k] == items && items[k..] == [];
    assert WithLabels(items[..k]) + items[k..] == WithLabels(items);
  }

  /** The validator (`_validate_reads_alignment_set_data`): defaults the
      description, rejects an empty item list, walks the items collecting
      references and defaulting labels, asks the object store about the
      references and checks that they share one genome. */
  method ValidateData(data: SetData, lookup: seq<ObjectSpec> -> seq<ObjectInfo>)
    returns (outcome: Outcome<Failure>, request: Option<seq<ObjectSpec>>)
    modifies data, data.ItemsArray()
    ensures data.items == old(data.items)
    ensures data.description == if old(data.description).None? then Some("") else old(data.description)
    ensures data.Items() == LabelledItems(old(data.Items()))
    ensures request == WorkspaceRequest(old(data.Items()))
    ensures outcome == ValidationOutcome(old(data.Items()), lookup)
  {
    if data.description.None? {
      data.description := Some("");
    }
    if data.items.None? || data.items.value.Length == 0 {
      if data.items.Some? {
        var empty: seq<Item> := [];
        assert data.items.value[..] == empty;
        assert WithLabels(empty[..0]) + empty[0..] == empty;
      }
      return Fail(NoItems), None;
    }
    var a := data.items.value;
    ghost var s := a[..];
    var refs: seq<string> := [];
    var i := 0;
    while i < a.Length
      invariant 0 <= i <= a.Length
      invariant data.items == Some(a)
      invariant data.description == if old(data.description).None? then Some("") else old(data.description)
      invariant forall j :: 0 <= j < i ==> s[j].ref.Some?
      invariant forall j :: 0 <= j < i ==> a[j] == WithLabel(s[j])
      invariant forall j :: i <= j < a.Length ==> a[j] == s[j]
      invariant |refs| == i && forall j :: 0 <= j < i ==> refs[j] == s[j].ref.value
    {
      if a[i].ref.None? {
        assert FirstMissingRef(s) == i;
        assert a[..] == WithLabels(s[..i]) + s[i..];
        assert !AllHaveRefs(s);
        return Fail(ItemWithoutRef), None;
      }
      refs := refs + [a[i].ref.value];
      if a[i].itemLabel.None? {
        a[i] := a[i].(itemLabel := Some(""));
      }
      i := i + 1;
    }
    assert AllHaveRefs(s);
    assert FirstMissingRef(s) == |s|;
    assert s[..|s|] == s && s[|s|..] == [];
    assert a[..] == WithLabels(s[..|s|]) + s[|s|..];
    var refList := seq(|refs|, j requires 0 <= j < |refs| => ObjectSpec(refs[j]));
    assert refList == RefList(s);
    var infos := lookup(refList);
    outcome := GenomeCheck(infos);
    request := Some(refList);
  }

  // ---------------------------------------------------------------------
  // Save side: the set reference
  // ---------------------------------------------------------------------

  /** The set reference: workspace id, object id and version in decimal,
      joined by '/'. */
  function SetRef(info: ObjectInfo): string {
    IntToDecimal(info.wsId) + "/" + IntToDecimal(info.objId) + "/" + IntToDecimal(info.version)
  }

  /** Reads a "workspace/object/version" reference back into its numbers. */
  function ParseSetRef(s: string): Option<(int, int, int)> {
    var parts := Split(s, '/');
    if |parts| != 3 then None
    else match (ParseInt(parts[0]), ParseInt(parts[1]), ParseInt(parts[2]))
      case (Some(w), Some(o), Some(v)) => Some((w, o, v))
      case _ => None
  }

  /** The set reference determines the saved object's workspace id, object
      id and version, in that order. */
  lemma SetRefRoundTrip(info: ObjectInfo)
    ensures ParseSetRef(SetRef(info)) == Some((info.wsId, info.objId, info.version))
  {
    var w, o, v := IntToDecimal(info.wsId), IntToDecimal(info.objId), IntToDecimal(info.version);
    assert SetRef(info) == w + ['/'] + (o + ['/'] + v);
    SplitAtFirstSeparator(w, '/', o + ['/'] + v);
    SplitAtFirstSeparator(o, '/', v);
    SplitWithoutSeparator(v, '/');
    ParseIntOfDecimal(info.wsId);
    ParseIntOfDecimal(info.objId);
    ParseIntOfDecimal(info.version);
  }

  /** Two saved objects get the same set reference only when they agree on
      workspace id, object id and version. */
  lemma SetRefInjective(a: ObjectInfo, b: ObjectInfo)
    requires SetRef(a) == SetRef(b)
    ensures a.wsId == b.wsId && a.objId == b.objId && a.version == b.version
  {
    SetRefRoundTrip(a);
    SetRefRoundTrip(b);
  }

  /** An info with object id 5, version 3 and workspace id 7 gives "7/5/3". */
  lemma SetRefExample()
    ensures SetRef(ObjectInfo(5, "set", "KBaseSets.ReadsAlignmentSet", "", 3, "", 7, "", "", 0, map[])) == "7/5/3"
  {
  }

  /** The shaping after `save_set`: the first info of its reply becomes
      `set_info`, unchanged, and `set_ref` is built from it. */
  function BuildSaveResult(saveReply: seq<ObjectInfo>): (r: Result<SaveResult, Failure>)
    ensures r.Failure? <==> |saveReply| == 0
    ensures r.Failure? ==> r.error == NoSaveInfo
    ensures r.Success? ==>
      r.value.setInfo == saveReply[0] &&
      r.value.setRef == SetRef(saveReply[0]) &&
      ParseSetRef(r.value.setRef) == Some((saveReply[0].wsId, saveReply[0].objId, saveReply[0].version))
  {
    if |saveReply| == 0 then Failure(NoSaveInfo)
    else
      var info := saveReply[0];
      SetRefRoundTrip(info);
      Success(SaveResult(SetRef(info), info))
  }

  /** `save_reads_alignment_set`: rejects a missing or null `data`,
      otherwise validates it in place and, only when validation passes,
      saves (`saved`) and shapes the reply. */
  method SaveReadsAlignmentSet(data: SetData?, lookup: seq<ObjectSpec> -> seq<ObjectInfo>, saveReply: seq<ObjectInfo>)
    returns (result: Result<SaveResult, Failure>, request: Option<seq<ObjectSpec>>, saved: bool)
    modifies if data == null then {} else {data} + data.ItemsArray()
    ensures data == null ==> result == Failure(DataMissing) && request.None? && !saved
    ensures data != null ==>
      data.items == old(data.items) &&
      data.description == (if old(data.description).None? then Some("") else old(data.description)) &&
      data.Items() == LabelledItems(old(data.Items())) &&
      request == WorkspaceRequest(old(data.Items()))
    ensures data != null ==>
      var v := ValidationOutcome(old(data.Items()), lookup);
      (saved <==> v.Pass?) &&
      (v.Fail? ==> result == Failure(v.error)) &&
      (v.Pass? ==> result == BuildSaveResult(saveReply))
  {
    if data == null {
      return Failure(DataMissing), None, false;
    }
    var outcome;
    outcome, request := ValidateData(data, lookup);
    if outcome.Fail? {
      return Failure(outcome.error), request, false;
    }
    saved := true;
    result := BuildSaveResult(saveReply);
  }

  // ---------------------------------------------------------------------
  // Get side
  // ---------------------------------------------------------------------

  /** A dictionary entry that may be absent, present but null, or present. */
  datatype Field<+T> = Absent | Null | Present(value: T)

  datatype GetParams = GetParams(
    ref: Field<string>,
    includeItemInfo: Field<int>,
    refPathToSet: Field<seq<string>>)

  /** The arguments handed to the generic set interface's `get_set`;
      a `refPathToSet` of None is a null passed through. */
  datatype GetRequest = GetRequest(ref: string, includeItemInfo: bool, refPathToSet: Option<seq<string>>)

  /** `_check_get_reads_alignment_set_params`. */
  function CheckGetParams(params: GetParams, checkReference: string -> bool): (r: Outcome<Failure>)
    ensures r == Pass <==>
      params.ref.Present? && checkReference(params.ref.value) &&
      params.includeItemInfo in {Absent, Present(0), Present(1)}
  {
    if !params.ref.Present? then Fail(RefMissing)
    else if !checkReference(params.ref.value) then Fail(RefMalformed)
    else if params.includeItemInfo.Present? && params.includeItemInfo.value in [0, 1] then Pass
    else if params.includeItemInfo.Absent? then Pass
    else Fail(BadIncludeItemInfo)
  }

  /** A missing or null `ref` is rejected before, and regardless of, the
      reference-format check. */
  lemma RefCheckedBeforeFormat(params: GetParams, f: string -> bool, g: string -> bool)
    requires !params.ref.Present?
    ensures CheckGetParams(params, f) == CheckGetParams(params, g) == Fail(RefMissing)
  {
  }

  /** The defaulting in `get_reads_alignment_set`. */
  function GetRequestOf(params: GetParams): (r: GetRequest)
    requires params.ref.Present?
    ensures r.ref == params.ref.value
    ensures r.includeItemInfo <==> params.includeItemInfo == Present(1)
    ensures params.refPathToSet.Absent? ==> r.refPathToSet == Some([])
    ensures params.refPathToSet.Null? ==> r.refPathToSet.None?
    ensures params.refPathToSet.Present? ==> r.refPathToSet == Some(params.refPathToSet.value)
  {
    var withItemInfo := params.includeItemInfo.Present? && params.includeItemInfo.value == 1;
    var path := match params.refPathToSet
      case Absent => Some([])
      case Null => None
      case Present(p) => Some(p);
    GetRequest(params.ref.value, withItemInfo, path)
  }

  /** On accepted parameters the boolean flag loses nothing: a present
      `include_item_info` is 1 exactly when the flag is set, and an absent
      one gives false. */
  lemma IncludeItemInfoFaithful(params: GetParams, checkReference: string -> bool)
    requires CheckGetParams(params, checkReference) == Pass
    ensures params.includeItemInfo.Present? ==>
      params.includeItemInfo.value == (if GetRequestOf(params).includeItemInfo then 1 else 0)
    ensures params.includeItemInfo.Absent? ==> !GetRequestOf(params).includeItemInfo
  {
  }

  /** `get_reads_alignment_set`: checks the parameters and returns exactly
      what the set interface's `get_set` gives for the defaulted request. */
  function GetReadsAlignmentSet<P>(params: GetParams, checkReference: string -> bool, getSet: GetRequest -> P)
    : (r: Result<P, Failure>)
    ensures r.Failure? <==> CheckGetParams(params, checkReference).Fail?
    ensures r.Failure? ==> r.error == CheckGetParams(params, checkReference).error
    ensures r.Success? ==> params.ref.Present? && r.value == getSet(GetRequestOf(params))
  {
    match CheckGetParams(params, checkReference)
    case Fail(e) => Failure(e)
    case Pass => Success(getSet(GetRequestOf(params)))
  }
}
