/** Describing a report: after the envelope test, the `entry` elements under the first
    `amperMap` that are marked `type="unresolved"` become the report's run-time parameters,
    each with the options listed under its `values` element. */
module Describe {
  import opened Common
  import opened Xml
  import opened Envelope

  const UNRESOLVED := "unresolved"

  datatype ParamOption = ParamOption(labelText: string, value: string)

  /** `select` when the parameter lists options, `text` (free input) otherwise. */
  datatype ParamKind = Select | FreeText

  datatype ReportParameter = ReportParameter(name: string, kind: ParamKind, options: seq<ParamOption>)

  /** An option of a parameter, from one entry under its `values`: only when both its key and
      its value are non-empty. */
  function OptionOf(entry: Element): (r: Option<ParamOption>)
    ensures r.Some? <==> Truthy(EntryKey(entry)) && Truthy(EntryValue(entry))
    ensures r.Some? ==> r.value == ParamOption(EntryKey(entry).value, EntryValue(entry).value)
  {
    var key := EntryKey(entry);
    var value := EntryValue(entry);
    if Truthy(key) && Truthy(value) then Some(ParamOption(key.value, value.value)) else None
  }

  /** The parameter an entry of the `amperMap` describes, if any: it must be unresolved, have a
      non-empty key and a `values` descendant; its options are those of the entries under that
      `values` element, in document order. */
  function ParameterOf(entry: Element): (r: Option<ReportParameter>)
    ensures r.Some? <==>
              Attr(entry, "type") == Some(UNRESOLVED) && Truthy(EntryKey(entry)) &&
              SelectFirst(entry, "values").Some?
    ensures r.Some? ==>
              r.value.name == EntryKey(entry).value &&
              r.value.options == FilterMap(SelectAll(SelectFirst(entry, "values").value, "entry"), OptionOf)
    ensures r.Some? ==> (r.value.kind == Select <==> |r.value.options| > 0)
    ensures r.Some? ==> forall o :: o in r.value.options ==> o.labelText != "" && o.value != ""
  {
    if Attr(entry, "type") == Some(UNRESOLVED) && Truthy(EntryKey(entry)) && SelectFirst(entry, "values").Some? then
      var options := FilterMap(SelectAll(SelectFirst(entry, "values").value, "entry"), OptionOf);
      assert forall o :: o in options ==> o.labelText != "" && o.value != "" by {
        forall o | o in options ensures o.labelText != "" && o.value != "" {
          FilterMapMember(SelectAll(SelectFirst(entry, "values").value, "entry"), OptionOf, o);
        }
      }
      Some(ReportParameter(EntryKey(entry).value, if |options| > 0 then Select else FreeText, options))
    else
      None
  }

  /** The entries of the first `amperMap` (all of them, at any depth); none when it is missing. */
  function AmperEntries(root: Element): (r: seq<Element>)
    ensures DocSelectFirst(root, "amperMap").None? ==> r == []
    ensures DocSelectFirst(root, "amperMap").Some? ==> r == SelectAll(DocSelectFirst(root, "amperMap").value, "entry")
    ensures forall x :: x in r ==> x.tag == "entry"
  {
    match DocSelectFirst(root, "amperMap")
    case None => []
    case Some(m) => SelectAll(m, "entry")
  }

  /** The inner loop of `describeFex`: the options of one parameter, pushed one by one. */
  method CollectOptions(valueEntries: seq<Element>) returns (options: seq<ParamOption>)
    ensures options == FilterMap(valueEntries, OptionOf)
  {
    options := [];
    var j := 0;
    while j < |valueEntries|
      invariant 0 <= j <= |valueEntries|
      invariant options == FilterMap(valueEntries[..j], OptionOf)
    {
      var optionKey := EntryKey(valueEntries[j]);
      var optionValue := EntryValue(valueEntries[j]);
      if Truthy(optionKey) && Truthy(optionValue) {
        options := options + [ParamOption(optionKey.value, optionValue.value)];
      }
      FilterMapAppend(valueEntries[..j], [valueEntries[j]], OptionOf);
      assert valueEntries[..j + 1] == valueEntries[..j] + [valueEntries[j]];
      j := j + 1;
    }
    assert valueEntries[..j] == valueEntries;
  }

  /** The callback of the outer loop of `describeFex`: pushes the entry's parameter when the
      entry qualifies, collecting its options first. */
  method PushParameter(params: seq<ReportParameter>, entry: Element) returns (result: seq<ReportParameter>)
    ensures result == params + FilterMap([entry], ParameterOf)
  {
    result := params;
    var key := EntryKey(entry);
    var valuesElement := SelectFirst(entry, "values");
    if Attr(entry, "type") == Some(UNRESOLVED) && Truthy(key) && valuesElement.Some? {
      var options := CollectOptions(SelectAll(valuesElement.value, "entry"));
      KeptEntry(entry);
      result := result + [ReportParameter(key.value, if |options| > 0 then Select else FreeText, options)];
    } else {
      DroppedEntry(entry);
      assert params + [] == params;
    }
  }

  /** The outer loop of `describeFex`: for each entry that qualifies, its options are collected
      and the parameter is pushed. */
  method CollectParameters(entries: seq<Element>) returns (params: seq<ReportParameter>)
    ensures params == FilterMap(entries, ParameterOf)
  {
    params := [];
    var i := 0;
    while i < |entries|
      invariant 0 <= i <= |entries|
      invariant params == FilterMap(entries[..i], ParameterOf)
    {
      params := PushParameter(params, entries[i]);
      FilterMapStep(entries, i, ParameterOf);
      i := i + 1;
    }
    assert entries[..i] == entries;
  }

  /** An entry that qualifies contributes its one parameter to the list. */
  lemma KeptEntry(entry: Element)
    requires Attr(entry, "type") == Some(UNRESOLVED) && Truthy(EntryKey(entry)) && SelectFirst(entry, "values").Some?
    ensures var options := FilterMap(SelectAll(SelectFirst(entry, "values").value, "entry"), OptionOf);
            FilterMap([entry], ParameterOf) ==
              [ReportParameter(EntryKey(entry).value, if |options| > 0 then Select else FreeText, options)]
  {
    FilterMapSingle(entry, ParameterOf);
  }

  /** An entry that does not qualify contributes nothing. */
  lemma DroppedEntry(entry: Element)
    requires !(Attr(entry, "type") == Some(UNRESOLVED) && Truthy(EntryKey(entry)) && SelectFirst(entry, "values").Some?)
    ensures FilterMap([entry], ParameterOf) == []
  {
    FilterMapSingle(entry, ParameterOf);
  }

  /** Every parameter comes from an unresolved entry with a key and a `values` element; and every
      such entry yields one, in document order. */
  lemma ParametersAreUnresolvedEntries(entries: seq<Element>, p: ReportParameter)
    ensures p in FilterMap(entries, ParameterOf) <==>
              exists e :: e in entries && ParameterOf(e) == Some(p)
    ensures p in FilterMap(entries, ParameterOf) ==>
              exists e :: e in entries && Attr(e, "type") == Some(UNRESOLVED) && EntryKey(e) == Some(p.name)
  {
    FilterMapMember(entries, ParameterOf, p);
  }

  /** An unresolved entry without a `values` element yields no parameter at all. */
  lemma NoValuesNoParameter(entry: Element)
    requires SelectFirst(entry, "values").None?
    ensures ParameterOf(entry).None?
  {
  }

  /** `describeFex` once the response is parsed: success exactly on a success code, with the
      parameters of the unresolved entries; otherwise `returndesc` as it is. */
  method InterpretDescribe(root: Element) returns (r: Outcome<seq<ReportParameter>>)
    ensures r.Success? <==> Succeeded(root)
    ensures r.Failure? ==> r.error == ReturnDesc(root)
    ensures r.Success? ==> r.value == FilterMap(AmperEntries(root), ParameterOf)
    ensures r.Success? && DocSelectFirst(root, "amperMap").None? ==> r.value == []
  {
    if !IsSuccessCode(Attr(root, "returncode")) {
      return Failure(Attr(root, "returndesc"));
    }
    var parameters: seq<ReportParameter> := [];
    var amperMap := DocSelectFirst(root, "amperMap");
    if amperMap.Some? {
      parameters := CollectParameters(SelectAll(amperMap.value, "entry"));
    }
    r := Success(parameters);
  }
}
