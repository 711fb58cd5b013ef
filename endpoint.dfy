/**
 * entity/endpoint/endpoint.go: turning HTTP form data into the JSON text
 * that is then unmarshalled into a typed request. The unmarshalling
 * (encoding/json) is not part of this model: ExtractRequest here returns
 * the JSON text it would hand to json.Unmarshal.
 */
module Endpoint {
  import opened Wrappers
  import opened Exception
  import opened Strings

  /** Form values by field name; a field may carry several values. */
  type FormData = map<string, seq<string>>

  datatype FieldsToExtract = FieldsToExtract(requiredFields: seq<string>, optionalFields: seq<string>)

  /** A required field is missing when it is absent or has no value. */
  predicate IsMissing(form: FormData, field: string)
  {
    field !in form || |form[field]| == 0
  }

  /** The missing required fields, in the order they are required. */
  function MissingFields(form: FormData, fields: seq<string>): (r: seq<string>)
    ensures forall f :: f in r <==> f in fields && IsMissing(form, f)
    ensures |r| <= |fields|
    decreases |fields|
  {
    if |fields| == 0 then []
    else
      var n := |fields| - 1;
      assert forall f :: f in fields <==> f in fields[..n] || f == fields[n];
      MissingFields(form, fields[..n]) + (if IsMissing(form, fields[n]) then [fields[n]] else [])
  }

  /** The positions of the missing fields, in increasing order. */
  function MissingIndices(form: FormData, fields: seq<string>): (ix: seq<nat>)
    ensures forall j :: 0 <= j < |ix| ==> ix[j] < |fields| && IsMissing(form, fields[ix[j]])
    ensures forall j, k :: 0 <= j < k < |ix| ==> ix[j] < ix[k]
    decreases |fields|
  {
    if |fields| == 0 then []
    else
      var n := |fields| - 1;
      var ix := MissingIndices(form, fields[..n]);
      assert forall j :: 0 <= j < |ix| ==> fields[..n][ix[j]] == fields[ix[j]];
      ix + (if IsMissing(form, fields[n]) then [n] else [])
  }

  /** Every missing position is listed, so a field required twice and
      missing is reported twice. */
  lemma {:induction false} MissingIndicesComplete(form: FormData, fields: seq<string>)
    ensures forall i :: 0 <= i < |fields| && IsMissing(form, fields[i]) ==> i in MissingIndices(form, fields)
    decreases |fields|
  {
    if |fields| > 0 {
      var n := |fields| - 1;
      MissingIndicesComplete(form, fields[..n]);
      assert MissingIndices(form, fields) ==
        MissingIndices(form, fields[..n]) + (if IsMissing(form, fields[n]) then [n] else []);
      assert forall i :: 0 <= i < n ==> fields[..n][i] == fields[i];
    }
  }

  /** The missing fields are the fields at the missing positions, in the
      order they are required. */
  lemma {:induction false} MissingFieldsInOrder(form: FormData, fields: seq<string>)
    ensures var r := MissingFields(form, fields);
      var ix := MissingIndices(form, fields);
      |r| == |ix| && forall j :: 0 <= j < |r| ==> r[j] == fields[ix[j]]
    decreases |fields|
  {
    if |fields| > 0 {
      var n := |fields| - 1;
      MissingFieldsInOrder(form, fields[..n]);
      var r0, ix0 := MissingFields(form, fields[..n]), MissingIndices(form, fields[..n]);
      var add := IsMissing(form, fields[n]);
      assert MissingFields(form, fields) == r0 + (if add then [fields[n]] else []);
      assert MissingIndices(form, fields) == ix0 + (if add then [n] else []);
      PrefixAligned(fields, r0, ix0);
      AlignedAppend(fields, r0, ix0, add);
    }
  }

  /** Positions into the first |fields| - 1 fields are positions into all
      of them. */
  lemma PrefixAligned(fields: seq<string>, r0: seq<string>, ix0: seq<nat>)
    requires |fields| > 0 && |r0| == |ix0|
    requires forall j :: 0 <= j < |ix0| ==> ix0[j] < |fields| - 1
    requires forall j :: 0 <= j < |r0| ==> r0[j] == fields[..|fields| - 1][ix0[j]]
    ensures forall j :: 0 <= j < |r0| ==> ix0[j] < |fields| - 1 && r0[j] == fields[ix0[j]]
  {
  }

  /** Extending a list of fields and their positions by the last field keeps
      the two aligned. */
  lemma AlignedAppend(fields: seq<string>, r0: seq<string>, ix0: seq<nat>, add: bool)
    requires |fields| > 0 && |r0| == |ix0|
    requires forall j :: 0 <= j < |r0| ==> ix0[j] < |fields| - 1 && r0[j] == fields[ix0[j]]
    ensures var n := |fields| - 1;
      var r := r0 + (if add then [fields[n]] else []);
      var ix := ix0 + (if add then [n] else []);
      |r| == |ix| && forall j :: 0 <= j < |r| ==> r[j] == fields[ix[j]]
  {
  }

  /** getMissingFields. */
  method GetMissingFields(form: FormData, requiredFields: seq<string>) returns (missing: seq<string>)
    ensures missing == MissingFields(form, requiredFields)
  {
    missing := [];
    var i := 0;
    while i < |requiredFields|
      invariant 0 <= i <= |requiredFields|
      invariant missing == MissingFields(form, requiredFields[..i])
    {
      var field := requiredFields[i];
      if field !in form || |form[field]| == 0 {
        missing := missing + [field];
      }
      assert requiredFields[..i + 1][..i] == requiredFields[..i];
      i := i + 1;
    }
    assert requiredFields[..i] == requiredFields;
  }

  /** One `"field": "value"` pair. */
  function Pair(field: string, value: string): (p: string)
    ensures |p| == |field| + |value| + 6 && p[0] == '"' && p[|p| - 1] == '"'
  {
    "\"" + field + "\": \"" + value + "\""
  }

  /** The first index at or after `i` holding a double quote, or |s|. */
  function QuoteIndex(s: string, i: nat): (k: nat)
    ensures i <= k || k == |s|
    ensures k <= |s|
    ensures k < |s| ==> s[k] == '"'
    ensures forall j :: i <= j < k ==> s[j] != '"'
    decreases |s| - i
  {
    if i >= |s| then |s| else if s[i] == '"' then i else QuoteIndex(s, i + 1)
  }

  /** Reads a pair back: the field runs up to the first quote after the
      opening one, the value up to the closing quote. */
  function ParsePair(p: string): Option<(string, string)>
  {
    if |p| < 6 || p[0] != '"' then None
    else
      var k := QuoteIndex(p, 1);
      if k + 4 <= |p| - 1 && p[k..k + 4] == "\": \"" && p[|p| - 1] == '"'
      then Some((p[1..k], p[k + 4..|p| - 1]))
      else None
  }

  lemma {:induction false} QuoteIndexAt(s: string, i: nat, j: nat)
    requires i <= j < |s| && s[j] == '"'
    requires forall k :: i <= k < j ==> s[k] != '"'
    ensures QuoteIndex(s, i) == j
    decreases j - i
  {
    if i < j {
      QuoteIndexAt(s, i + 1, j);
    }
  }

  /** A field without a double quote in it, and any value, are read back
      from their pair. */
  lemma ParsePairRoundTrip(field: string, value: string)
    requires '"' !in field
    ensures ParsePair(Pair(field, value)) == Some((field, value))
  {
    var p := Pair(field, value);
    assert p == ['"'] + field + ['"', ':', ' ', '"'] + value + ['"'];
    assert p[1..1 + |field|] == field;
    assert p[1 + |field|..5 + |field|] == "\": \"";
    assert p[5 + |field|..|p| - 1] == value;
    forall k | 1 <= k < 1 + |field| ensures p[k] != '"' {
      assert p[k] == field[k - 1];
    }
    QuoteIndexAt(p, 1, 1 + |field|);
  }

  /** Every field has at least one value. */
  ghost predicate HasValues(form: FormData, fields: seq<string>)
  {
    forall f :: f in fields ==> f in form && |form[f]| > 0
  }

  /** One pair per field, in order, each with the field's first value. */
  function Pairs(form: FormData, fields: seq<string>): (r: seq<string>)
    requires HasValues(form, fields)
    ensures |r| == |fields|
    ensures forall i :: 0 <= i < |fields| ==> r[i] == Pair(fields[i], form[fields[i]][0])
    decreases |fields|
  {
    if |fields| == 0 then []
    else
      var n := |fields| - 1;
      assert HasValues(form, fields[..n]) by {
        forall f | f in fields[..n] ensures f in fields { }
      }
      Pairs(form, fields[..n]) + [Pair(fields[n], form[fields[n]][0])]
  }

  /** Appending one field with a value appends its pair. */
  lemma PairsAppend(form: FormData, fields: seq<string>, field: string)
    requires HasValues(form, fields) && field in form && |form[field]| > 0
    ensures HasValues(form, fields + [field])
    ensures Pairs(form, fields + [field]) == Pairs(form, fields) + [Pair(field, form[field][0])]
  {
    assert (fields + [field])[..|fields|] == fields;
  }

  /** The fields that occur in the form, in order. */
  function PresentFields(form: FormData, fields: seq<string>): seq<string>
    decreases |fields|
  {
    if |fields| == 0 then []
    else
      var n := |fields| - 1;
      PresentFields(form, fields[..n]) + (if fields[n] in form then [fields[n]] else [])
  }

  /** PresentFields keeps exactly the fields that occur in the form. */
  lemma {:induction false} PresentFieldsMembers(form: FormData, fields: seq<string>)
    ensures forall f :: f in PresentFields(form, fields) <==> f in fields && f in form
    decreases |fields|
  {
    if |fields| > 0 {
      var n := |fields| - 1;
      PresentFieldsMembers(form, fields[..n]);
      assert forall f :: f in fields <==> f in fields[..n] || f == fields[n];
    }
  }

  /** The pairs of the optional fields that are present, in order. */
  function OptionalPairs(form: FormData, fields: seq<string>): seq<string>
    requires forall f :: f in fields && f in form ==> |form[f]| > 0
    decreases |fields|
  {
    if |fields| == 0 then []
    else
      var n := |fields| - 1;
      assert forall f :: f in fields[..n] ==> f in fields;
      OptionalPairs(form, fields[..n])
      + (if fields[n] in form then [Pair(fields[n], form[fields[n]][0])] else [])
  }

  /** The optional pairs are the pairs of the present fields. */
  lemma {:induction false} OptionalPairsArePresentPairs(form: FormData, fields: seq<string>)
    requires forall f :: f in fields && f in form ==> |form[f]| > 0
    ensures HasValues(form, PresentFields(form, fields))
    ensures OptionalPairs(form, fields) == Pairs(form, PresentFields(form, fields))
    decreases |fields|
  {
    PresentFieldsMembers(form, fields);
    if |fields| > 0 {
      var n := |fields| - 1;
      assert forall f :: f in fields[..n] ==> f in fields;
      OptionalPairsArePresentPairs(form, fields[..n]);
      if fields[n] in form {
        PairsAppend(form, PresentFields(form, fields[..n]), fields[n]);
      }
    }
  }

  /** The pairs of two field lists, one after the other. */
  lemma PairsConcat(form: FormData, a: seq<string>, b: seq<string>)
    requires HasValues(form, a) && HasValues(form, b)
    ensures HasValues(form, a + b)
    ensures Pairs(form, a + b) == Pairs(form, a) + Pairs(form, b)
  {
    assert HasValues(form, a + b) by {
      forall f | f in a + b ensures f in form && |form[f]| > 0 {
        assert f in a || f in b;
      }
    }
    var l, r := Pairs(form, a + b), Pairs(form, a) + Pairs(form, b);
    forall i | 0 <= i < |l| ensures l[i] == r[i] {
      if i < |a| {
        assert (a + b)[i] == a[i];
      } else {
        assert (a + b)[i] == b[i - |a|];
      }
    }
  }

  /** What ExtractRequest produces: an ErrInvalidInput listing the missing
      required fields, or the JSON object of the required pairs followed by
      the pairs of the optional fields present. */
  function RequestJson(form: FormData, fields: FieldsToExtract): (res: Result<string, Error>)
    requires MissingFields(form, fields.requiredFields) == [] ==>
      forall f :: f in fields.optionalFields && f in form ==> |form[f]| > 0
    ensures res.Failure? <==> exists f :: f in fields.requiredFields && IsMissing(form, f)
    ensures res.Failure? ==> res.error.cause == InvalidInput
    ensures res.Success? ==> |res.value| >= 2 && res.value[0] == '{' && res.value[|res.value| - 1] == '}'
  {
    var missing := MissingFields(form, fields.requiredFields);
    assert |missing| > 0 ==> missing[0] in missing;
    if |missing| > 0 then
      Failure(Wrap(Sentinel(InvalidInput), "missing fields: [" + Join(missing, " ") + "]"))
    else
      Success("{" + Join(Pairs(form, fields.requiredFields) + OptionalPairs(form, fields.optionalFields), ", ") + "}")
  }

  /** On success the JSON text is the pairs of the required fields and then
      of the present optional fields, joined by ", " inside braces. */
  lemma RequestJsonText(form: FormData, fields: FieldsToExtract)
    requires MissingFields(form, fields.requiredFields) == [] ==>
      forall f :: f in fields.optionalFields && f in form ==> |form[f]| > 0
    ensures RequestJson(form, fields).Success? ==>
      var present := PresentFields(form, fields.optionalFields);
      && HasValues(form, fields.requiredFields + present)
      && RequestJson(form, fields).value ==
         "{" + Join(Pairs(form, fields.requiredFields + present), ", ") + "}"
  {
    if MissingFields(form, fields.requiredFields) == [] {
      assert HasValues(form, fields.requiredFields) by {
        forall f | f in fields.requiredFields ensures f in form && |form[f]| > 0 {
          assert !(f in MissingFields(form, fields.requiredFields));
        }
      }
      OptionalPairsArePresentPairs(form, fields.optionalFields);
      PairsConcat(form, fields.requiredFields, PresentFields(form, fields.optionalFields));
    }
  }

  /** ExtractRequest, up to the JSON text. Once every required field is
      present, a present optional field must have a value: the Go code reads
      its first value unchecked. */
  method ExtractRequest(form: FormData, fields: FieldsToExtract) returns (res: Result<string, Error>)
    requires MissingFields(form, fields.requiredFields) == [] ==>
      forall f :: f in fields.optionalFields && f in form ==> |form[f]| > 0
    ensures res == RequestJson(form, fields)
  {
    var missing := GetMissingFields(form, fields.requiredFields);
    if |missing| > 0 {
      return Failure(Wrap(Sentinel(InvalidInput), "missing fields: [" + Join(missing, " ") + "]"));
    }
    var pairs := RequiredPairs(form, fields.requiredFields);
    pairs := AppendOptionalPairs(form, fields.optionalFields, pairs);
    return Success("{" + Join(pairs, ", ") + "}");
  }

  /** The first loop of ExtractRequest: a pair for every required field. */
  method RequiredPairs(form: FormData, required: seq<string>) returns (pairs: seq<string>)
    requires HasValues(form, required)
    ensures pairs == Pairs(form, required)
  {
    pairs := [];
    var i := 0;
    while i < |required|
      invariant 0 <= i <= |required|
      invariant HasValues(form, required[..i])
      invariant pairs == Pairs(form, required[..i])
    {
      var field := required[i];
      pairs := pairs + [Pair(field, form[field][0])];
      assert required[..i + 1][..i] == required[..i];
      i := i + 1;
    }
    assert required[..i] == required;
  }

  /** The second loop of ExtractRequest: a pair for every optional field
      that is present, skipping the others. */
  method AppendOptionalPairs(form: FormData, optional: seq<string>, pairs0: seq<string>) returns (pairs: seq<string>)
    requires forall f :: f in optional && f in form ==> |form[f]| > 0
    ensures pairs == pairs0 + OptionalPairs(form, optional)
  {
    pairs := pairs0;
    var j := 0;
    while j < |optional|
      invariant 0 <= j <= |optional|
      invariant pairs == pairs0 + OptionalPairs(form, optional[..j])
    {
      var field := optional[j];
      assert optional[..j + 1][..j] == optional[..j];
      if field in form {
        pairs := pairs + [Pair(field, form[field][0])];
      }
      j := j + 1;
    }
    assert optional[..j] == optional;
  }
}
