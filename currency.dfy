/** `format_indian_currency`: the digits of an amount grouped with commas in
    the South-Asian way (thousands, lakhs, crores), as the result popup shows
    it. */
module IndianCurrency {
  import opened Wrappers
  import opened Text
  import opened Decimal

  function Abs(x: int): nat
  {
    if x < 0 then -x else x
  }

  /** The slicing applied to the numeral `s` of the amount: the last seven
      digits are cut 2-2-3, anything in front of them is one prefix. */
  function GroupDigits(s: string): (r: string)
    ensures |r| == |s| + CommasFor(|s|)
    ensures |s| <= 3 ==> r == s
  {
    var l := |s|;
    if l > 7 then
      var crores := s[..l - 7];
      var remaining := s[l - 7..];
      crores + "," + remaining[..2] + "," + remaining[2..4] + "," + remaining[4..]
    else if l > 5 then
      var lakhs := s[..l - 5];
      var remaining := s[l - 5..];
      lakhs + "," + remaining[..2] + "," + remaining[2..]
    else if l > 3 then
      s[..l - 3] + "," + s[l - 3..]
    else
      s
  }

  /** The text shown for an amount; the sign is dropped. */
  function FormatIndianCurrency(amount: int): (r: string)
    ensures |r| == |ToDecimal(Abs(amount))| + CommasFor(|ToDecimal(Abs(amount))|)
    ensures -1000 < amount < 1000 ==> r == ToDecimal(Abs(amount))
  {
    assert Pow10(3) == 1000;
    DecimalLength(Abs(amount), 3);
    GroupDigits(ToDecimal(Abs(amount)))
  }

  /** The digit groups `GroupDigits` separates with commas, first to last. */
  function Groups(s: string): seq<string>
  {
    var l := |s|;
    if l > 7 then [s[..l - 7], s[l - 7..l - 5], s[l - 5..l - 3], s[l - 3..]]
    else if l > 5 then [s[..l - 5], s[l - 5..l - 3], s[l - 3..]]
    else if l > 3 then [s[..l - 3], s[l - 3..]]
    else [s]
  }

  /** Number of commas the formatter puts in a numeral of `l` digits. */
  function CommasFor(l: nat): nat
  {
    if l <= 3 then 0 else if l <= 5 then 1 else if l <= 7 then 2 else 3
  }

  /** Grouping is exactly joining the groups with commas. */
  lemma GroupDigitsIsJoin(s: string)
    ensures |Groups(s)| == CommasFor(|s|) + 1
    ensures GroupDigits(s) == Join(Groups(s))
  {
    var l := |s|;
    var g := Groups(s);
    if l > 7 {
      assert s[l - 7..][..2] == s[l - 7..l - 5];
      assert s[l - 7..][2..4] == s[l - 5..l - 3];
      assert s[l - 7..][4..] == s[l - 3..];
      assert g[1..][1..][1..] == [g[3]];
      assert Join(g[1..][1..]) == g[2] + "," + g[3];
      assert Join(g[1..]) == g[1] + "," + (g[2] + "," + g[3]);
    } else if l > 5 {
      assert s[l - 5..][..2] == s[l - 5..l - 3];
      assert s[l - 5..][2..] == s[l - 3..];
      assert g[1..][1..] == [g[2]];
      assert Join(g[1..]) == g[1] + "," + g[2];
    }
  }

  /** Concatenating the groups gives back the numeral. */
  lemma GroupsCover(s: string)
    ensures Concat(Groups(s)) == s
  {
    var l := |s|;
    var g := Groups(s);
    if l > 7 {
      assert g[1..][1..][1..] == [g[3]];
      assert Concat([g[3]]) == g[3] + Concat([]);
      assert Concat(g[1..][1..]) == g[2] + g[3];
      assert Concat(g[1..]) == g[1] + (g[2] + g[3]);
      assert s == g[0] + (g[1] + (g[2] + g[3]));
    } else if l > 5 {
      assert g[1..][1..] == [g[2]];
      assert Concat([g[2]]) == g[2] + Concat([]);
      assert s == g[0] + (g[1] + (g[2] + []));
    } else if l > 3 {
      assert Concat([g[1]]) == g[1] + Concat([]);
      assert s == g[0] + (g[1] + []);
    } else {
      assert Concat([g[0]]) == g[0] + Concat([]);
      assert s == g[0] + [];
    }
  }

  function Concat(pieces: seq<string>): string
  {
    if pieces == [] then [] else pieces[0] + Concat(pieces[1..])
  }

  /** Removing the commas from a join of comma-free pieces leaves their
      concatenation. */
  lemma {:induction false} WithoutCommasJoin(pieces: seq<string>)
    requires |pieces| >= 1
    requires forall k :: 0 <= k < |pieces| ==> ',' !in pieces[k]
    ensures WithoutCommas(Join(pieces)) == Concat(pieces)
  {
    if |pieces| == 1 {
      assert Concat(pieces) == pieces[0] + Concat([]);
    } else {
      WithoutCommasJoin(pieces[1..]);
      WithoutCommasAppend(pieces[0], "," + Join(pieces[1..]));
      WithoutCommasAppend(",", Join(pieces[1..]));
      assert pieces[0] + "," + Join(pieces[1..]) == pieces[0] + ("," + Join(pieces[1..]));
    }
  }

  lemma NoCommaInDigits(s: string)
    requires AllDigits(s)
    ensures ',' !in s
  {
  }

  /** Every group is a non-empty run of digits. */
  lemma GroupsAreDigits(s: string)
    requires |s| >= 1 && AllDigits(s)
    ensures forall k :: 0 <= k < |Groups(s)| ==> Groups(s)[k] != [] && AllDigits(Groups(s)[k])
  {
  }

  /** Stripping the commas from the formatted amount gives `str(abs(amount))`,
      so `int(formatted.replace(',', ''))` in the popup recovers `abs(amount)`. */
  lemma StripCommasRoundTrip(amount: int)
    ensures WithoutCommas(FormatIndianCurrency(amount)) == ToDecimal(Abs(amount))
    ensures ParseInt(WithoutCommas(FormatIndianCurrency(amount))) == Some(Abs(amount))
  {
    var s := ToDecimal(Abs(amount));
    GroupDigitsIsJoin(s);
    GroupsAreDigits(s);
    forall k | 0 <= k < |Groups(s)| ensures ',' !in Groups(s)[k] {
      NoCommaInDigits(Groups(s)[k]);
    }
    WithoutCommasJoin(Groups(s));
    GroupsCover(s);
    ParseDecimal(Abs(amount));
  }

  /** The formatter ignores the sign. */
  lemma SignDropped(amount: int)
    ensures FormatIndianCurrency(-amount) == FormatIndianCurrency(amount)
  {
  }

  /** How many commas appear: none below a thousand, one below a lakh, two
      below a crore, and never more than three however large the amount. */
  lemma CommaCount(amount: int)
    ensures Count(FormatIndianCurrency(amount), ',') == CommasFor(|ToDecimal(Abs(amount))|)
    ensures Count(FormatIndianCurrency(amount), ',') ==
      if Abs(amount) < 1000 then 0
      else if Abs(amount) < 100000 then 1
      else if Abs(amount) < 10000000 then 2
      else 3
  {
    var s := ToDecimal(Abs(amount));
    StripCommasRoundTrip(amount);
    GroupDigitsIsJoin(s);
    GroupsAreDigits(s);
    forall k | 0 <= k < |Groups(s)| ensures ',' !in Groups(s)[k] {
      NoCommaInDigits(Groups(s)[k]);
    }
    SplitJoin(Groups(s));
    assert Pow10(3) == 1000 && Pow10(5) == 100000 && Pow10(7) == 10000000;
    DecimalLength(Abs(amount), 3);
    DecimalLength(Abs(amount), 5);
    DecimalLength(Abs(amount), 7);
  }

  /** The shape of the output, read back as the
      pieces between its commas (`Split`): the groups
      concatenate to `str(abs(amount))`; past three digits the last group has
      three digits and every group between the first and the last has two;
      the first group has one or two digits up to seven digits, and holds all
      `l - 7` leading digits beyond that. */
  lemma GroupShape(amount: int)
    ensures var s := ToDecimal(Abs(amount));
            var g := Split(FormatIndianCurrency(amount));
            && |g| == CommasFor(|s|) + 1
            && Concat(g) == s
            && (forall k :: 0 <= k < |g| ==> g[k] != [] && AllDigits(g[k]))
            && (|s| <= 3 ==> g == [s])
            && (|s| > 3 ==> |g[|g| - 1]| == 3)
            && (forall k :: 0 < k < |g| - 1 ==> |g[k]| == 2)
            && (3 < |s| <= 7 ==> 1 <= |g[0]| <= 2)
            && (|s| > 7 ==> |g[0]| == |s| - 7)
  {
    var s := ToDecimal(Abs(amount));
    GroupDigitsIsJoin(s);
    GroupsAreDigits(s);
    forall k | 0 <= k < |Groups(s)| ensures ',' !in Groups(s)[k] {
      NoCommaInDigits(Groups(s)[k]);
    }
    SplitJoin(Groups(s));
    GroupsCover(s);
  }

  /** The numerals of the worked values below, one digit at a time. */
  lemma Numeral12345()
    ensures ToDecimal(12345) == "12345"
  {
    assert ToDecimal(1) == "1";
    assert ToDecimal(12) == "12";
    assert ToDecimal(123) == "123";
    assert ToDecimal(1234) == "1234";
  }

  lemma Numeral1234567()
    ensures ToDecimal(1234567) == "1234567"
  {
    Numeral12345();
    assert ToDecimal(123456) == "123456";
  }

  lemma Numeral123456789()
    ensures ToDecimal(123456789) == "123456789"
  {
    Numeral1234567();
    assert ToDecimal(12345678) == "12345678";
  }

  /** Worked values: zero and a three-digit amount are shown unchanged. */
  lemma ShortExamples()
    ensures FormatIndianCurrency(0) == "0"
    ensures FormatIndianCurrency(500) == "500"
  {
    assert ToDecimal(5) == "5" && ToDecimal(50) == "50" && ToDecimal(500) == "500";
  }

  /** Worked value in the thousands: one comma before the last three digits. */
  lemma ThousandsExample()
    ensures FormatIndianCurrency(12345) == "12,345"
  {
    Numeral12345();
    ThousandsGrouping();
  }

  lemma ThousandsGrouping()
    ensures GroupDigits("12345") == "12,345"
  {
    var s := "12345";
    assert s[..2] == "12" && s[2..] == "345";
  }

  /** Worked value in the lakhs; the minus sign is not shown. */
  lemma LakhsExample()
    ensures FormatIndianCurrency(-1234567) == "12,34,567"
  {
    Numeral1234567();
    LakhsGrouping();
  }

  lemma LakhsGrouping()
    ensures GroupDigits("1234567") == "12,34,567"
  {
    var s := "1234567";
    assert s[..2] == "12" && s[2..] == "34567";
    var r := s[2..];
    assert r[..2] == "34" && r[2..] == "567";
  }

  /** Worked value in the crores. */
  lemma CroresExample()
    ensures FormatIndianCurrency(123456789) == "12,34,56,789"
  {
    Numeral123456789();
    CroresGrouping();
  }

  lemma CroresGrouping()
    ensures GroupDigits("123456789") == "12,34,56,789"
  {
    var s := "123456789";
    assert s[..2] == "12" && s[2..] == "3456789";
    var r := s[2..];
    assert r[..2] == "34" && r[2..4] == "56" && r[4..] == "789";
  }
}
