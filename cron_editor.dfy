/**
 * The cron editor: a cron string is stored as the SpEL call
 * `T(com.cronutils.parser.CronParser).parse('<cron>')`, and read back with the
 * regular expression `T\(com\.cronutils\.parser\.CronParser\)\.parse\('(.*?)'\)`.
 *
 * The regular expression is stated by hand: the search tries every start
 * position from the left; at a position it needs the literal prefix, then the
 * shortest run of characters other than line terminators that is followed by `')`.
 */
module CronEditor {
  import opened Wrappers
  import opened Values
  import opened Text

  /** The literal text in front of the capture group. */
  const Prefix: string := "T(com.cronutils.parser.CronParser).parse('"

  /** The literal text after the capture group. */
  const Suffix: string := "')"

  /** Handed to the cron widget instead of an empty value, so that the widget does not
      replace it with a default of its own and report a change. */
  const NotExistingCronExpression: string := "-1 -1 -1 -1 -1 -1 -1"

  /** `encode`: the empty value stays empty; any other value is wrapped in the template. */
  function Encode(value: string): (e: string)
    ensures e == "" <==> value == ""
    ensures value != "" ==> |e| == |Prefix| + |value| + |Suffix|
    ensures value != "" ==> PrefixAt(e, 0) && e[|Prefix|..|Prefix| + |value|] == value
    ensures value != "" ==> CloseQuoteAt(e, |e| - 2)
  {
    if value == "" then "" else Prefix + value + Suffix
  }

  /** The template's prefix starts at position `i` of `e`. */
  predicate PrefixAt(e: string, i: nat)
  {
    i + |Prefix| <= |e| && forall t :: 0 <= t < |Prefix| ==> e[i + t] == Prefix[t]
  }

  /** The closing `')` starts at position `k` of `s`. */
  predicate CloseQuoteAt(s: string, k: int)
  {
    0 <= k && k + 1 < |s| && s[k] == '\'' && s[k + 1] == ')'
  }

  /** The lazy group `(.*?)'\)` run from position `k`: the first position at or after `k` where
      `')` starts, provided no line terminator comes before it. */
  function CaptureEnd(s: string, k: nat): (r: Option<nat>)
    requires k <= |s|
    ensures r.Some? ==> k <= r.value && CloseQuoteAt(s, r.value)
    ensures r.Some? ==> forall j :: k <= j < r.value ==> !CloseQuoteAt(s, j) && !IsLineTerminator(s[j])
    ensures r.None? ==> forall j :: k <= j && CloseQuoteAt(s, j) ==>
                          exists m :: k <= m < j && IsLineTerminator(s[m])
    decreases |s| - k
  {
    if CloseQuoteAt(s, k) then Some(k)
    else if k == |s| || IsLineTerminator(s[k]) then None
    else CaptureEnd(s, k + 1)
  }

  /** The capture group when the pattern is tried at start position `i` of `e`: it follows the
      prefix, is followed by `')`, and can itself be carried by the codec. */
  function MatchAt(e: string, i: nat): (r: Option<string>)
    requires i <= |e|
    ensures r.Some? <==> PrefixAt(e, i) && CaptureEnd(e, i + |Prefix|).Some?
    ensures r.Some? ==> CloseQuoteAt(e, i + |Prefix| + |r.value|)
                        && e[i + |Prefix|..i + |Prefix| + |r.value|] == r.value
    ensures r.Some? ==> Representable(r.value)
  {
    if PrefixAt(e, i) then
      match CaptureEnd(e, i + |Prefix|)
      case None => None
      case Some(end) =>
        var k := i + |Prefix|;
        var c := e[k..end];
        assert forall t :: 0 <= t < |c| ==> c[t] == e[k + t];
        Some(c)
    else None
  }

  /** The pattern matches somewhere in `e`. */
  ghost predicate Matches(e: string)
  {
    exists i :: 0 <= i <= |e| && MatchAt(e, i).Some?
  }

  /** The search of `RegExp.exec`: the leftmost start position, at or after `i`, at which the
      pattern matches. */
  function FirstMatch(e: string, i: nat): (r: Option<nat>)
    requires i <= |e|
    ensures r.Some? ==> i <= r.value <= |e| && MatchAt(e, r.value).Some?
    ensures r.Some? ==> forall k :: i <= k < r.value ==> MatchAt(e, k).None?
    ensures r.None? ==> forall k :: i <= k <= |e| ==> MatchAt(e, k).None?
    decreases |e| - i
  {
    if MatchAt(e, i).Some? then Some(i)
    else if i == |e| then None
    else FirstMatch(e, i + 1)
  }

  /** `decode`: the capture group of the leftmost match, or `""` when there is none. */
  function Decode(expression: string): (r: string)
    ensures Representable(r)
    ensures !Matches(expression) ==> r == ""
    ensures Matches(expression) ==>
              exists j :: 0 <= j <= |expression| && MatchAt(expression, j) == Some(r)
                          && forall k :: 0 <= k < j ==> MatchAt(expression, k).None?
  {
    match FirstMatch(expression, 0)
    case None => ""
    case Some(j) => MatchAt(expression, j).value
  }

  /** `CronEditor.switchableTo`: the pattern matches somewhere, or the expression is empty. */
  function SwitchableTo(expressionObj: ExpressionObj): (r: bool)
    ensures r <==> expressionObj.expression == "" || Matches(expressionObj.expression)
  {
    FirstMatch(expressionObj.expression, 0).Some? || expressionObj.expression == ""
  }

  /** The value handed to the cron widget: the sentinel in place of the empty value. */
  function WidgetValue(value: string): (r: string)
    ensures r != ""
    ensures r == NotExistingCronExpression <==> value == "" || value == NotExistingCronExpression
    ensures value != "" ==> r == value
  {
    if value == "" then NotExistingCronExpression else value
  }

  // ---------------------------------------------------------------------------
  // The codec round trip
  // ---------------------------------------------------------------------------

  /** The values the codec carries unchanged: no line terminator and no `')` inside. */
  predicate Representable(value: string)
  {
    NoLineTerminator(value) && forall k :: 0 <= k < |value| ==> !CloseQuoteAt(value, k)
  }

  /** Inside an encoded value the lazy group runs exactly to the template's own `')`. */
  lemma CaptureOfRepresentable(value: string)
    requires value != "" && Representable(value)
    ensures CaptureEnd(Encode(value), |Prefix|) == Some(|Prefix| + |value|)
  {
    var e := Encode(value);
    var n := |Prefix| + |value|;
    assert e == Prefix + value + Suffix;
    assert forall j :: |Prefix| <= j < n ==> e[j] == value[j - |Prefix|];
    assert CloseQuoteAt(e, n);
    forall j | |Prefix| <= j < n ensures !CloseQuoteAt(e, j) {
      if j + 1 < n {
        assert !CloseQuoteAt(value, j - |Prefix|);
      } else {
        assert e[j + 1] == '\'';
      }
    }
  }

  /** `decode(encode(v)) == v` for every value without a line terminator and without `')`. */
  lemma RoundTrip(value: string)
    requires Representable(value)
    ensures Decode(Encode(value)) == value
  {
    if value != "" {
      CaptureOfRepresentable(value);
      assert MatchAt(Encode(value), 0) == Some(value);
    } else {
      assert MatchAt("", 0).None?;
    }
  }

  /** Whatever the expression, the value read from it is carried unchanged: encoding it and
      decoding again gives the same value. */
  lemma DecodeThenEncodeIsStable(expression: string)
    ensures Decode(Encode(Decode(expression))) == Decode(expression)
  {
    RoundTrip(Decode(expression));
  }

  /** Every encoded representable value can be switched to the cron editor. */
  lemma EncodedIsSwitchable(value: string, language: string)
    requires Representable(value)
    ensures SwitchableTo(ExpressionObj(Encode(value), language))
  {
    if value != "" {
      CaptureOfRepresentable(value);
      assert MatchAt(Encode(value), 0).Some?;
    }
  }

  /** The side condition is needed: the lazy group stops at the first `')`. */
  lemma RoundTripStopsAtFirstCloseQuote()
    ensures Decode(Encode("a')b")) == "a"
  {
    var e := Encode("a')b");
    assert e == Prefix + "a')b')";
    var p := |Prefix|;
    assert e[p] == 'a' && e[p + 1] == '\'' && e[p + 2] == ')';
    assert !CloseQuoteAt(e, p) && CloseQuoteAt(e, p + 1);
    assert CaptureEnd(e, p + 1) == Some(p + 1);
    assert CaptureEnd(e, p) == Some(p + 1);
    assert e[p..p + 1] == "a";
    assert MatchAt(e, 0) == Some("a");
  }

  /** Nor can a line terminator be carried: `.` does not match it, and the prefix occurs nowhere else. */
  lemma RoundTripStopsAtLineTerminator()
    ensures Decode(Encode("\n")) == ""
  {
    var e := Encode("\n");
    assert e == Prefix + "\n')";
    var p := |Prefix|;
    assert e[p] == '\n' && !CloseQuoteAt(e, p);
    assert CaptureEnd(e, p).None?;
    assert MatchAt(e, 0).None?;
    forall i | 1 <= i <= |e| ensures !PrefixAt(e, i) {
      if i <= 3 {
        assert e[i] == Prefix[i] && Prefix[i] != Prefix[0];
      }
    }
  }

  /** A text in which the prefix never occurs decodes to `""`, and is switchable only when empty. */
  lemma NoPrefixDecodesEmpty(expression: string, language: string)
    requires forall i :: 0 <= i <= |expression| ==> !PrefixAt(expression, i)
    ensures Decode(expression) == ""
    ensures SwitchableTo(ExpressionObj(expression, language)) <==> expression == ""
  {
  }

  // ---------------------------------------------------------------------------
  // The component's state: the decoded value and whether the widget is open
  // ---------------------------------------------------------------------------

  class CronEditorState {
    /** The `readOnly` prop. */
    const readOnly: bool
    /** The `value` state cell: the cron string being edited. */
    var value: string
    /** The `open` state cell: whether the cron widget is shown. */
    var open: bool

    /** A read-only editor never opens the widget. */
    ghost predicate Valid()
      reads this
    {
      readOnly ==> !open
    }

    /** Mounting: `value` starts as the decoded expression and the widget is closed. */
    constructor (expressionObj: ExpressionObj, readOnly: bool)
      ensures Valid()
      ensures this.readOnly == readOnly
      ensures value == Decode(expressionObj.expression) && !open
    {
      this.readOnly := readOnly;
      value := Decode(expressionObj.expression);
      open := false;
    }

    /** `onInputFocus`: opens the widget unless the editor is read-only. */
    method OnInputFocus()
      requires Valid()
      modifies this`open
      ensures Valid()
      ensures open == (!readOnly || old(open))
    {
      if !readOnly {
        open := true;
      }
    }

    /** `handleClickOutside`: a mousedown inside the container changes nothing; one outside
        closes the widget. */
    method HandleClickOutside(insideContainer: bool)
      requires Valid()
      modifies this`open
      ensures Valid()
      ensures open == (insideContainer && old(open))
    {
      if insideContainer {
        return;
      }
      open := false;
    }

    /** The widget's `onChange`: the widget, and so this event, exists only while it is open;
        the new cron string becomes the value. */
    method OnCronChange(cron: string)
      requires Valid() && open
      modifies this`value
      ensures Valid()
      ensures value == cron
    {
      value := cron;
    }
  }
}
