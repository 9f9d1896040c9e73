/** The input check at the top of `predict_price`: the eight entry fields are
    read in their fixed order, each is stripped, rejected when blank, parsed as
    a float and rejected when the parse fails or the number is negative; the
    first failing field decides the message `predict_price` raises. */
module Validation {
  import opened Wrappers
  import opened Text

  /** The keys of the `features` dictionary, in insertion order, which is the
      order `.items()` visits them and the column order of the training data. */
  const FieldNames: seq<string> := [
    "Square_Footage", "Bedrooms", "Bathrooms", "Location_Rating",
    "Floor_Number", "Parking_Spots", "Swimming_Pool", "Security_Rating"
  ]

  /** Eight fields, each named once, as the keys of a dictionary are. */
  lemma FieldNamesDistinct()
    ensures |FieldNames| == 8
    ensures forall i, j :: 0 <= i < j < |FieldNames| ==> FieldNames[i] != FieldNames[j]
  {
  }

  function EmptyMessage(field: string): string
  {
    "Please enter a value for " + field
  }

  function InvalidMessage(field: string): string
  {
    "Please enter a valid number for " + field
  }

  function NegativeMessage(field: string): string
  {
    field + " cannot be negative"
  }

  /** What the inner `try` block can raise: `float()` rejecting the text, or
      the explicit "cannot be negative" error. */
  datatype Raised = FloatRejected | Negative(message: string)

  /** The inner `try` block on a stripped, non-blank value; `parse` stands for
      Python's `float()`, `None` meaning it raised `ValueError`. */
  function TryBlock(field: string, value: string, parse: string -> Option<real>): (r: Result<real, Raised>)
    ensures r.Success? <==> parse(value).Some? && parse(value).value >= 0.0
    ensures r.Success? ==> r.value == parse(value).value
  {
    match parse(value)
    case None => Failure(FloatRejected)
    case Some(x) => if x < 0.0 then Failure(Negative(NegativeMessage(field))) else Success(x)
  }

  /** The `except ValueError` clause: whatever the block raised, the error
      raised in its place asks for a valid number. */
  function ExceptClause(field: string, inner: Result<real, Raised>): (r: Result<real, string>)
    ensures inner.Success? ==> r == Success(inner.value)
    ensures inner.Failure? ==> r == Failure(InvalidMessage(field))
  {
    match inner
    case Success(x) => Success(x)
    case Failure(_) => Failure(InvalidMessage(field))
  }

  /** One iteration of the loop, for the field `field` holding the text `raw`. */
  function CheckField(field: string, raw: string, parse: string -> Option<real>): (r: Result<real, string>)
    ensures r.Success? <==> Strip(raw) != [] && parse(Strip(raw)).Some? && parse(Strip(raw)).value >= 0.0
    ensures r.Success? ==> r.value == parse(Strip(raw)).value && r.value >= 0.0
    ensures r.Failure? && Strip(raw) == [] ==> r.error == EmptyMessage(field)
    ensures r.Failure? && Strip(raw) != [] ==> r.error == InvalidMessage(field)
  {
    var value := Strip(raw);
    if value == [] then Failure(EmptyMessage(field))
    else ExceptClause(field, TryBlock(field, value, parse))
  }

  /** The "cannot be negative" message never leaves `predict_price`'s loop: the
      `except` clause replaces it, and neither raised message can be mistaken
      for it. */
  lemma NegativeMessageSwallowed(field: string, raw: string, parse: string -> Option<real>)
    ensures CheckField(field, raw, parse) != Failure(NegativeMessage(field))
  {
    var r := CheckField(field, raw, parse);
    if r.Failure? {
      assert |r.error| > |NegativeMessage(field)|;
    }
  }

  /** A negative number is reported as an invalid number for its field. */
  lemma NegativeReportedAsInvalid(field: string, raw: string, parse: string -> Option<real>)
    requires Strip(raw) != []
    requires parse(Strip(raw)).Some? && parse(Strip(raw)).value < 0.0
    ensures CheckField(field, raw, parse) == Failure(InvalidMessage(field))
  {
  }

  /** Field `k` is the first that fails, so its message is the loop's. */
  lemma FirstFailure(names: seq<string>, entries: seq<string>, parse: string -> Option<real>, k: nat, message: string)
    requires k < |names| == |entries|
    requires forall j :: 0 <= j < k ==> CheckField(names[j], entries[j], parse).Success?
    requires CheckField(names[k], entries[k], parse) == Failure(message)
    ensures !(forall i :: 0 <= i < |names| ==> CheckField(names[i], entries[i], parse).Success?)
    ensures exists k :: (0 <= k < |names|
              && (forall i :: 0 <= i < k ==> CheckField(names[i], entries[i], parse).Success?)
              && CheckField(names[k], entries[k], parse) == Failure(message))
  {
  }

  /** Every field passed with the value collected for it. */
  lemma AllPassed(names: seq<string>, entries: seq<string>, parse: string -> Option<real>, values: seq<real>)
    requires |values| == |names| == |entries|
    requires forall j :: 0 <= j < |names| ==> CheckField(names[j], entries[j], parse) == Success(values[j])
    ensures forall i :: 0 <= i < |names| ==> CheckField(names[i], entries[i], parse).Success?
    ensures forall i :: 0 <= i < |values| ==> parse(Strip(entries[i])) == Some(values[i]) && values[i] >= 0.0
  {
    forall i | 0 <= i < |values|
      ensures parse(Strip(entries[i])) == Some(values[i]) && values[i] >= 0.0
    {
      assert CheckField(names[i], entries[i], parse) == Success(values[i]);
    }
  }

  /** The loop of `predict_price` over `self.features.items()`: `names` are the
      keys in their insertion order (`FieldNames` on the form) and `entries[i]`
      is the text of the field `names[i]`. On success one value per field comes
      back in field order, each the parse of its stripped text and none
      negative; on failure the message is that of the first field that fails,
      every earlier one having passed. */
  method CollectInputs(names: seq<string>, entries: seq<string>, parse: string -> Option<real>)
    returns (r: Result<seq<real>, string>)
    requires |entries| == |names|
    ensures r.Success? <==> forall i :: 0 <= i < |names| ==> CheckField(names[i], entries[i], parse).Success?
    ensures r.Success? ==> |r.value| == |names|
    ensures r.Success? ==> forall i :: 0 <= i < |r.value| ==>
              parse(Strip(entries[i])) == Some(r.value[i]) && r.value[i] >= 0.0
    ensures r.Failure? ==>
              exists k :: (0 <= k < |names|
                && (forall i :: 0 <= i < k ==> CheckField(names[i], entries[i], parse).Success?)
                && CheckField(names[k], entries[k], parse) == Failure(r.error))
  {
    var inputValues: seq<real> := [];
    for i := 0 to |names|
      invariant |inputValues| == i
      invariant forall j :: 0 <= j < i ==> CheckField(names[j], entries[j], parse) == Success(inputValues[j])
    {
      ghost var check := CheckField(names[i], entries[i], parse);
      var value := Strip(entries[i]);
      if value == [] {
        r := Failure(EmptyMessage(names[i]));
        FirstFailure(names, entries, parse, i, r.error);
        return;
      }
      var floatValue := parse(value);
      if floatValue.None? || floatValue.value < 0.0 {
        r := Failure(InvalidMessage(names[i]));
        FirstFailure(names, entries, parse, i, r.error);
        return;
      }
      assert check == Success(floatValue.value);
      inputValues := inputValues + [floatValue.value];
    }
    AllPassed(names, entries, parse, inputValues);
    return Success(inputValues);
  }
}
