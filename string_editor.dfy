/**
 * The string editor: offered for an expression that is a whole quoted literal,
 * as tested by `/(^'.*'$)|(^".*"$)/` together with the language `"spel"`.
 */
module StringEditor {
  import opened Wrappers
  import opened Values
  import opened Text

  /** Without the `m` flag, `^` and `$` anchor at the ends of the whole text, so a branch is the
      quote, `.*`, the same quote and the end of the text. This is the part after the opening
      quote: characters other than line terminators, then the quote as the last character. */
  predicate DotsThenQuoteAtEnd(s: string, quote: char)
  {
    if s == [quote] then true
    else |s| > 0 && !IsLineTerminator(s[0]) && DotsThenQuoteAtEnd(s[1..], quote)
  }

  /** One branch of the pattern: `^q.*q$`. */
  predicate QuotedBranch(expression: string, quote: char)
  {
    |expression| > 0 && expression[0] == quote && DotsThenQuoteAtEnd(expression[1..], quote)
  }

  /** `stringPattern.test(expression)`: the text is wholly single- or wholly double-quoted. */
  predicate StringPattern(expression: string): (r: bool)
    ensures r <==> WhollyQuoted(expression, '\'') || WhollyQuoted(expression, '"')
  {
    QuotedBranchIff(expression, '\'');
    QuotedBranchIff(expression, '"');
    QuotedBranch(expression, '\'') || QuotedBranch(expression, '"')
  }

  /** The same shape stated directly: at least two characters, the same quote first and last,
      and no line terminator in between. Inner quotes are not inspected. */
  predicate WhollyQuoted(expression: string, quote: char)
  {
    |expression| >= 2 && expression[0] == quote && expression[|expression| - 1] == quote
    && NoLineTerminator(expression[1..|expression| - 1])
  }

  lemma {:induction false} DotsThenQuoteAtEndIff(s: string, quote: char)
    requires !IsLineTerminator(quote)
    ensures DotsThenQuoteAtEnd(s, quote) <==>
            |s| >= 1 && s[|s| - 1] == quote && NoLineTerminator(s[..|s| - 1])
  {
    if s == [quote] {
    } else if |s| >= 2 {
      DotsThenQuoteAtEndIff(s[1..], quote);
      var body, tail := s[..|s| - 1], s[1..][..|s| - 2];
      assert body == [s[0]] + tail;
      assert NoLineTerminator(body) <==> !IsLineTerminator(s[0]) && NoLineTerminator(tail) by {
        assert forall i :: 1 <= i < |body| ==> body[i] == tail[i - 1];
      }
    }
  }

  /** The hand-written branch agrees with its direct statement. */
  lemma QuotedBranchIff(expression: string, quote: char)
    requires !IsLineTerminator(quote)
    ensures QuotedBranch(expression, quote) <==> WhollyQuoted(expression, quote)
  {
    if |expression| > 0 {
      DotsThenQuoteAtEndIff(expression[1..], quote);
      if |expression| >= 2 {
        assert expression[1..][..|expression| - 2] == expression[1..|expression| - 1];
      }
    }
  }

  /** `parseable`, which is `StringEditor.switchableTo`: the pattern holds and the language is SpEL. */
  function SwitchableTo(expressionObj: ExpressionObj): (r: bool)
    ensures r <==> expressionObj.language == "spel"
                   && (WhollyQuoted(expressionObj.expression, '\'') || WhollyQuoted(expressionObj.expression, '"'))
  {
    StringPattern(expressionObj.expression) && expressionObj.language == "spel"
  }

  /** Another language is never switchable, even for a quoted text. */
  lemma OtherLanguageNotSwitchable(expression: string, language: string)
    requires language != "spel"
    ensures !SwitchableTo(ExpressionObj(expression, language))
  {
  }

  /** Text of length two or more, with the same quote at both ends and no line terminator, is
      switchable in SpEL, whatever quotes it holds inside (`'a'b'` is switchable). */
  lemma QuotedTextSwitchable(expression: string, quote: char)
    requires quote == '\'' || quote == '"'
    requires |expression| >= 2 && expression[0] == quote && expression[|expression| - 1] == quote
    requires NoLineTerminator(expression)
    ensures SwitchableTo(ExpressionObj(expression, "spel"))
  {
    assert forall i :: 1 <= i < |expression| - 1 ==> expression[1..|expression| - 1][i - 1] == expression[i];
  }

  /** Mismatched quotes and texts shorter than two characters are not switchable. */
  lemma BoundaryCases()
    ensures !SwitchableTo(ExpressionObj("'abc\"", "spel"))
    ensures !SwitchableTo(ExpressionObj("'", "spel"))
    ensures !SwitchableTo(ExpressionObj("", "spel"))
    ensures SwitchableTo(ExpressionObj("'a'b'", "spel"))
    ensures !SwitchableTo(ExpressionObj("'a\nb'", "spel"))
  {
    var e := "'a\nb'";
    assert e[1..|e| - 1][1] == '\n';
  }

  /** A formatter of strings; the formatters themselves are not part of this model. */
  datatype Formatter = Formatter(name: string)

  /** `typeFormatters[FormatterType.String]`. */
  const StringTypeFormatter: Formatter := Formatter("String")

  /** The formatter the editor uses: the String type formatter when none is given
      (`formatter == null` holds for both `null` and `undefined`). */
  function StringFormatter(formatter: Option<Formatter>): (r: Formatter)
    ensures formatter.None? ==> r == StringTypeFormatter
    ensures formatter.Some? ==> r == formatter.value
  {
    match formatter
    case None => StringTypeFormatter
    case Some(f) => f
  }
}
