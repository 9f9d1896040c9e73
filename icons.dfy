/** `get_feature_icon`: the icon shown next to a field's label, found by
    scanning a fixed key/icon table in order for the first key that occurs in
    the field's name. */
module FeatureIcons {
  import opened Wrappers
  import opened Text
  import Validation

  /** The glyphs of the table, as opaque constants: ruler, bed, shower, pin,
      classical building, office building, car, swimmer, tree, house, lock,
      sunrise, and the sparkles used when nothing matches. The source stores
      them mis-encoded, and two pairs come out as the same string there (ruler
      and pin, bed and classical building); the constants are the pictures the
      table evidently means, so those pairs are told apart here. */
  datatype Icon = Ruler | Bed | Shower | Pin | Columns | Office | Car | Swimmer
                | Tree | House | Lock | Sunrise | Sparkles

  /** The `icons` dictionary in insertion order; the keys "Age of Property",
      "Garden Area", "Smart Home Features" and "View Rating" name no field of
      the form. */
  const IconTable: seq<(string, Icon)> := [
    ("Square_Footage", Ruler),
    ("Bedrooms", Bed),
    ("Bathrooms", Shower),
    ("Location_Rating", Pin),
    ("Age of Property", Columns),
    ("Floor_Number", Office),
    ("Parking_Spots", Car),
    ("Swimming_Pool", Swimmer),
    ("Garden Area", Tree),
    ("Smart Home Features", House),
    ("Security_Rating", Lock),
    ("View Rating", Sunrise)
  ]

  const DefaultIcon: Icon := Sparkles

  /** Twelve rows with distinct keys, as the keys of a dictionary are; every
      field of the form is one of them, at the row `FieldRows` gives. */
  lemma IconTableKeys()
    ensures |IconTable| == 12
    ensures forall i, j :: 0 <= i < j < |IconTable| ==> IconTable[i].0 != IconTable[j].0
    ensures forall i :: 0 <= i < |Validation.FieldNames| ==>
              FieldRows[i] < |IconTable| && IconTable[FieldRows[i]].0 == Validation.FieldNames[i]
  {
  }

  /** The index of the first row of `table` whose key occurs in `feature`. */
  function FirstMatch(table: seq<(string, Icon)>, feature: string): (k: Option<nat>)
    ensures k.Some? ==> k.value < |table| && Contains(feature, table[k.value].0)
    ensures k.Some? ==> forall j :: 0 <= j < k.value ==> !Contains(feature, table[j].0)
    ensures k.None? ==> forall j :: 0 <= j < |table| ==> !Contains(feature, table[j].0)
  {
    if table == [] then None
    else if Contains(feature, table[0].0) then Some(0)
    else match FirstMatch(table[1..], feature)
      case None => None
      case Some(k) => Some(k + 1)
  }

  /** The icon of the first key, in table order, that is a substring of
      `feature`; the default when no key is. */
  function FeatureIcon(feature: string): (icon: Icon)
    ensures forall k :: 0 <= k < |IconTable| && Contains(feature, IconTable[k].0)
              && (forall j :: 0 <= j < k ==> !Contains(feature, IconTable[j].0))
              ==> icon == IconTable[k].1
    ensures (forall j :: 0 <= j < |IconTable| ==> !Contains(feature, IconTable[j].0))
              ==> icon == DefaultIcon
  {
    match FirstMatch(IconTable, feature)
    case None => DefaultIcon
    case Some(k) => IconTable[k].1
  }

  /** The icon each form field is meant to get: that of its own row. */
  const FieldIconsInOrder: seq<Icon> := [Ruler, Bed, Shower, Pin, Office, Car, Swimmer, Lock]

  /** `key` does not occur in `name`, because it is longer or holds the
      character `c` that `name` lacks. */
  lemma Absent(name: string, key: string, c: char)
    requires |key| > |name| || (c in key && c !in name)
    ensures !Contains(name, key)
  {
    if Contains(name, key) {
      ContainsKeepsChars(name, key, c);
    }
  }

  /** The field at index `i` of the form is named by the key of row
      `FieldRows[i]`. */
  const FieldRows: seq<nat> := [0, 1, 2, 3, 5, 6, 7, 10]

  /** For each form field, one character per earlier row of the table: a
      character of that row's key which the field's name lacks, or a blank
      where the key is longer than the name (then the length alone rules it
      out). Either way the key cannot occur in the name (`Absent`). */
  const FieldMarks: seq<string> := [
    "",           // Square_Footage: no earlier row
    " ",          // Bedrooms: "Square_Footage" is longer
    " e",         // Bathrooms: longer; 'e' of "Bedrooms"
    "SBB",        // Location_Rating: 'S', then the 'B' of "Bedrooms" and of "Bathrooms"
    " BB  ",      // Floor_Number: longer, 'B', 'B', longer, longer
    " BB  F",     // Parking_Spots: as above, then 'F' of "Floor_Number"
    " BB  Fk",    // Swimming_Pool: as above, then 'k' of "Parking_Spots"
    "qBBLAFPwG "  // Security_Rating: 'q' of "Square_Footage", 'B', 'B', 'L', 'A' of
                  // "Age of Property", 'F', 'P', 'w' of "Swimming_Pool", 'G' of
                  // "Garden Area"; "Smart Home Features" is longer
  ]

  /** Each key of the rows `lo` to `hi - 1` is longer than `name` or holds the
      character `marks[j]`, which `name` lacks. */
  predicate Excluded(name: string, lo: nat, hi: nat, marks: string)
    requires lo <= hi <= |IconTable| && hi <= |marks|
  {
    lo == hi ||
    (Excluded(name, lo, hi - 1, marks) &&
     (|IconTable[hi - 1].0| > |name| || (marks[hi - 1] in IconTable[hi - 1].0 && marks[hi - 1] !in name)))
  }

  /** An excluded key does not occur in `name`. */
  lemma {:induction false} ExcludedAbsent(name: string, lo: nat, hi: nat, marks: string)
    requires lo <= hi <= |IconTable| && hi <= |marks| && Excluded(name, lo, hi, marks)
    ensures forall j :: lo <= j < hi ==> !Contains(name, IconTable[j].0)
  {
    if lo < hi {
      ExcludedAbsent(name, lo, hi - 1, marks);
      Absent(name, IconTable[hi - 1].0, marks[hi - 1]);
    }
  }

  // One lemma per field states that the rows before the field's own row do not
  // occur in its name. Each checks `Excluded` on at most three rows, which keeps
  // every proof obligation small; `EarlierKeysAbsent` collects them.

  lemma BedroomsKeysAbsent()
    ensures forall j :: 0 <= j < 1 ==> !Contains(Validation.FieldNames[1], IconTable[j].0)
  {
    ExcludedAbsent(Validation.FieldNames[1], 0, 1, FieldMarks[1]);
  }

  lemma BathroomsKeysAbsent()
    ensures forall j :: 0 <= j < 2 ==> !Contains(Validation.FieldNames[2], IconTable[j].0)
  {
    ExcludedAbsent(Validation.FieldNames[2], 0, 2, FieldMarks[2]);
  }

  lemma LocationRatingKeysAbsent()
    ensures forall j :: 0 <= j < 3 ==> !Contains(Validation.FieldNames[3], IconTable[j].0)
  {
    ExcludedAbsent(Validation.FieldNames[3], 0, 3, FieldMarks[3]);
  }

  lemma FloorNumberKeysAbsent0()
    ensures forall j :: 0 <= j < 3 ==> !Contains(Validation.FieldNames[4], IconTable[j].0)
  {
    ExcludedAbsent(Validation.FieldNames[4], 0, 3, FieldMarks[4]);
  }

  lemma FloorNumberKeysAbsent3()
    ensures forall j :: 3 <= j < 5 ==> !Contains(Validation.FieldNames[4], IconTable[j].0)
  {
    ExcludedAbsent(Validation.FieldNames[4], 3, 5, FieldMarks[4]);
  }

  lemma FloorNumberKeysAbsent()
    ensures forall j :: 0 <= j < 5 ==> !Contains(Validation.FieldNames[4], IconTable[j].0)
  {
    FloorNumberKeysAbsent0();
    FloorNumberKeysAbsent3();
  }

  lemma ParkingSpotsKeysAbsent0()
    ensures forall j :: 0 <= j < 3 ==> !Contains(Validation.FieldNames[5], IconTable[j].0)
  {
    ExcludedAbsent(Validation.FieldNames[5], 0, 3, FieldMarks[5]);
  }

  lemma ParkingSpotsKeysAbsent3()
    ensures forall j :: 3 <= j < 6 ==> !Contains(Validation.FieldNames[5], IconTable[j].0)
  {
    ExcludedAbsent(Validation.FieldNames[5], 3, 6, FieldMarks[5]);
  }

  lemma ParkingSpotsKeysAbsent()
    ensures forall j :: 0 <= j < 6 ==> !Contains(Validation.FieldNames[5], IconTable[j].0)
  {
    ParkingSpotsKeysAbsent0();
    ParkingSpotsKeysAbsent3();
  }

  lemma SwimmingPoolKeysAbsent0()
    ensures forall j :: 0 <= j < 3 ==> !Contains(Validation.FieldNames[6], IconTable[j].0)
  {
    ExcludedAbsent(Validation.FieldNames[6], 0, 3, FieldMarks[6]);
  }

  lemma SwimmingPoolKeysAbsent3()
    ensures forall j :: 3 <= j < 6 ==> !Contains(Validation.FieldNames[6], IconTable[j].0)
  {
    ExcludedAbsent(Validation.FieldNames[6], 3, 6, FieldMarks[6]);
  }

  lemma SwimmingPoolKeysAbsent6()
    ensures forall j :: 6 <= j < 7 ==> !Contains(Validation.FieldNames[6], IconTable[j].0)
  {
    ExcludedAbsent(Validation.FieldNames[6], 6, 7, FieldMarks[6]);
  }

  lemma SwimmingPoolKeysAbsent()
    ensures forall j :: 0 <= j < 7 ==> !Contains(Validation.FieldNames[6], IconTable[j].0)
  {
    SwimmingPoolKeysAbsent0();
    SwimmingPoolKeysAbsent3();
    SwimmingPoolKeysAbsent6();
  }

  lemma SecurityRatingKeysAbsent0()
    ensures forall j :: 0 <= j < 3 ==> !Contains(Validation.FieldNames[7], IconTable[j].0)
  {
    ExcludedAbsent(Validation.FieldNames[7], 0, 3, FieldMarks[7]);
  }

  lemma SecurityRatingKeysAbsent3()
    ensures forall j :: 3 <= j < 6 ==> !Contains(Validation.FieldNames[7], IconTable[j].0)
  {
    ExcludedAbsent(Validation.FieldNames[7], 3, 6, FieldMarks[7]);
  }

  lemma SecurityRatingKeysAbsent6()
    ensures forall j :: 6 <= j < 9 ==> !Contains(Validation.FieldNames[7], IconTable[j].0)
  {
    ExcludedAbsent(Validation.FieldNames[7], 6, 9, FieldMarks[7]);
  }

  lemma SecurityRatingKeysAbsent9()
    ensures forall j :: 9 <= j < 10 ==> !Contains(Validation.FieldNames[7], IconTable[j].0)
  {
    ExcludedAbsent(Validation.FieldNames[7], 9, 10, FieldMarks[7]);
  }

  lemma SecurityRatingKeysAbsent()
    ensures forall j :: 0 <= j < 10 ==> !Contains(Validation.FieldNames[7], IconTable[j].0)
  {
    SecurityRatingKeysAbsent0();
    SecurityRatingKeysAbsent3();
    SecurityRatingKeysAbsent6();
    SecurityRatingKeysAbsent9();
  }

  /** No key before its own row occurs in a form field's name. */
  lemma EarlierKeysAbsent(i: nat)
    requires i < |Validation.FieldNames|
    ensures forall j :: 0 <= j < FieldRows[i] ==> !Contains(Validation.FieldNames[i], IconTable[j].0)
  {
    if i == 0 { }
    else if i == 1 { BedroomsKeysAbsent(); }
    else if i == 2 { BathroomsKeysAbsent(); }
    else if i == 3 { LocationRatingKeysAbsent(); }
    else if i == 4 { FloorNumberKeysAbsent(); }
    else if i == 5 { ParkingSpotsKeysAbsent(); }
    else if i == 6 { SwimmingPoolKeysAbsent(); }
    else if i == 7 { SecurityRatingKeysAbsent(); }
  }

  /** Each of the eight form fields gets the icon of its own row: no earlier
      key of the table occurs in its name. */
  lemma FieldIcon(i: nat)
    requires i < |Validation.FieldNames|
    ensures FeatureIcon(Validation.FieldNames[i]) == IconTable[FieldRows[i]].1
    ensures FeatureIcon(Validation.FieldNames[i]) == FieldIconsInOrder[i]
  {
    EarlierKeysAbsent(i);
    assert IconTable[FieldRows[i]].0 == Validation.FieldNames[i];
  }
}
