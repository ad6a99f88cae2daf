/** The weekday text shown under each habit: its day numbers mapped through a
    fixed table of abbreviations and joined with ", ". */
module DaysText {
  import opened Wrappers

  const DayNames: seq<string> := ["Sun", "Mon", "Tue", "Wed", "Thu", "Fri", "Sat"]

  /** The day number an abbreviation stands for, -1 for any other text. */
  function DayIndex(name: string): (d: int)
    ensures -1 <= d < 7
  {
    if name == "Sun" then 0 else if name == "Mon" then 1 else if name == "Tue" then 2
    else if name == "Wed" then 3 else if name == "Thu" then 4 else if name == "Fri" then 5
    else if name == "Sat" then 6 else -1
  }

  /** The table entry for day `d`. Indexing outside the table gives `undefined`,
      which `join` writes as the empty string. */
  function DayName(d: int): (name: string)
    ensures 0 <= d < 7 ==> |name| == 3 && DayIndex(name) == d
    ensures !(0 <= d < 7) ==> name == []
  {
    if 0 <= d < 7 then DayNames[d] else []
  }

  /** `Array.prototype.join`: the parts with `sep` between consecutive ones. */
  function Join(parts: seq<string>, sep: string): (r: string)
    ensures parts == [] ==> r == []
    ensures parts != [] ==> parts[0] <= r
    ensures |parts| > 1 ==> parts[0] + sep <= r
  {
    if |parts| == 0 then [] else if |parts| == 1 then parts[0]
    else parts[0] + sep + Join(parts[1..], sep)
  }

  /** The `map` step: each day number replaced by its abbreviation. */
  function Names(days: seq<int>): (names: seq<string>)
    ensures |names| == |days|
    ensures forall i :: 0 <= i < |days| ==> names[i] == DayName(days[i])
  {
    if days == [] then [] else [DayName(days[0])] + Names(days[1..])
  }

  /** The text after the time in a habit's line. */
  function DaysLabel(days: seq<int>): (text: string)
    ensures days == [] ==> text == []
    ensures days != [] ==> DayName(days[0]) <= text
    ensures |days| > 1 ==> DayName(days[0]) + ", " <= text
  {
    Join(Names(days), ", ")
  }

  predicate ValidDays(days: seq<int>)
  {
    forall i :: 0 <= i < |days| ==> 0 <= days[i] < 7
  }

  /** Reads a days label back. The empty text is no days; otherwise the text must
      be three-letter day names separated by exactly ", ". */
  function ParseLabel(text: string): Option<seq<int>>
  {
    if text == [] then Some([]) else ParseNames(text)
  }

  /** One or more day names separated by ", ", or `None`. */
  function ParseNames(text: string): Option<seq<int>>
    decreases |text|
  {
    if |text| < 3 || DayIndex(text[..3]) < 0 then None
    else if |text| == 3 then Some([DayIndex(text)])
    else if |text| < 5 || text[3..5] != ", " then None
    else match ParseNames(text[5..])
      case None => None
      case Some(rest) => Some([DayIndex(text[..3])] + rest)
  }

  /** The label of valid days is five characters per day less the final separator. */
  lemma {:induction false} DaysLabelLength(days: seq<int>)
    requires days != [] && ValidDays(days)
    ensures |DaysLabel(days)| == 5 * |days| - 2
  {
    if |days| > 1 {
      DaysLabelLength(days[1..]);
    }
  }

  /** The label of valid days determines the days, in order, repeats included, and
      reads back only because every separator is ", ". */
  lemma DaysLabelRoundTrip(days: seq<int>)
    requires ValidDays(days)
    ensures ParseLabel(DaysLabel(days)) == Some(days)
  {
    if days != [] {
      NamesRoundTrip(days);
    }
  }

  lemma {:induction false} NamesRoundTrip(days: seq<int>)
    requires days != [] && ValidDays(days)
    ensures ParseNames(DaysLabel(days)) == Some(days)
  {
    var head := DayName(days[0]);
    if |days| == 1 {
      assert DaysLabel(days) == head;
      assert head[..3] == head;
      assert days == [days[0]];
    } else {
      DaysLabelCons(days);
      DaysLabelLength(days[1..]);
      NamesRoundTrip(days[1..]);
      ParseNamesStep(days[0], DaysLabel(days[1..]));
      assert days == [days[0]] + days[1..];
    }
  }

  /** The label of two or more days is the first name, ", ", and the label of the rest. */
  lemma DaysLabelCons(days: seq<int>)
    requires |days| > 1
    ensures DaysLabel(days) == DayName(days[0]) + ", " + DaysLabel(days[1..])
  {
    assert Names(days)[1..] == Names(days[1..]);
  }

  /** Reading one day's name and ", " in front of a text of at least one name. */
  lemma ParseNamesStep(d: int, tail: string)
    requires 0 <= d < 7 && |tail| >= 3
    ensures ParseNames(DayName(d) + ", " + tail)
         == (if ParseNames(tail).Some? then Some([d] + ParseNames(tail).value) else None)
  {
    var text := DayName(d) + ", " + tail;
    assert text[..3] == DayName(d);
    assert text[3..5] == ", ";
    assert text[5..] == tail;
  }

  /** Whatever the parser accepts is the label of valid days: every separator it
      read was ", " and every name was a day's abbreviation. */
  lemma {:induction false} ParseNamesSound(text: string)
    requires ParseNames(text).Some?
    ensures ParseNames(text).value != [] && ValidDays(ParseNames(text).value)
    ensures DaysLabel(ParseNames(text).value) == text
  {
    var d := DayIndex(text[..3]);
    assert 0 <= d < 7;
    assert DayName(d) == text[..3];
    if |text| == 3 {
      assert text[..3] == text;
    } else {
      var rest := ParseNames(text[5..]).value;
      ParseNamesSound(text[5..]);
      assert ParseNames(text).value == [d] + rest;
      assert ([d] + rest)[1..] == rest;
      assert text == text[..3] + ", " + text[5..];
    }
  }

  /** A text reads back as `days` exactly when it is the label of `days` and the
      days are valid: a wrong separator or name anywhere is rejected. */
  lemma ParseLabelExact(text: string, days: seq<int>)
    ensures ParseLabel(text) == Some(days) <==> ValidDays(days) && text == DaysLabel(days)
  {
    if ValidDays(days) && text == DaysLabel(days) {
      DaysLabelRoundTrip(days);
    }
    if ParseLabel(text) == Some(days) && text != [] {
      ParseNamesSound(text);
    }
  }

  /** The scenario of a habit on Monday, Wednesday and Friday. */
  lemma MondayWednesdayFriday()
    ensures DaysLabel([1, 3, 5]) == "Mon, Wed, Fri"
  {
  }
}
