/**
 * TValidationSummary: the error messages of failed validators formatted as
 * inline HTML (list, bulleted list or single paragraph) or as message-box
 * text, and the summary's own visible/refresh state.
 */
module ValidationSummary {
  import Text

  // ---------------------------------------------------------------- messages

  /** getMessages: the non-empty error messages, in order. */
  function GetMessages(errorMessages: seq<string>): (messages: seq<string>)
    ensures |messages| <= |errorMessages|
    ensures forall k :: 0 <= k < |messages| ==> |messages[k]| > 0
    ensures forall m :: m in messages <==> m in errorMessages && |m| > 0
  {
    if errorMessages == [] then []
    else
      var rest := GetMessages(errorMessages[1..]);
      assert forall m :: m in errorMessages <==> m == errorMessages[0] || m in errorMessages[1..];
      if |errorMessages[0]| > 0 then [errorMessages[0]] + rest else rest
  }

  lemma {:induction false} GetMessagesAppend(a: seq<string>, b: seq<string>)
    ensures GetMessages(a + b) == GetMessages(a) + GetMessages(b)
    decreases |a|
  {
    if a == [] {
      assert a + b == b;
    } else {
      assert (a + b)[0] == a[0];
      assert (a + b)[1..] == a[1..] + b;
      GetMessagesAppend(a[1..], b);
    }
  }

  // ---------------------------------------------------------------- inline summary

  /** The pieces of one display mode. */
  datatype Format = Format(header: string, first: string, pre: string, post: string, last: string)

  /** formats: List, SingleParagraph, and BulletList for every other mode. */
  function Formats(displayMode: string): Format {
    match displayMode
    case "List" => Format("<br />", "", "", "<br />", "")
    case "SingleParagraph" => Format(" ", "", "", " ", "<br />")
    case _ => Format("", "<ul>", "<li>", "</li>", "</ul>")
  }

  /** Every display mode other than List and SingleParagraph formats as BulletList. */
  lemma UnknownModeIsBulletList(displayMode: string)
    requires displayMode != "List" && displayMode != "SingleParagraph"
    ensures Formats(displayMode) == Formats("BulletList")
    ensures Formats(displayMode).pre == "<li>" && Formats(displayMode).post == "</li>"
  {
  }

  /** The body of the summary: each non-empty message between pre and post, empty ones dropped. */
  function Items(fmt: Format, messages: seq<string>): string {
    if messages == [] then ""
    else (if |messages[0]| > 0 then fmt.pre + messages[0] + fmt.post else "") + Items(fmt, messages[1..])
  }

  /** The header line: HeaderText followed by the mode's header piece, or nothing without HeaderText. */
  function SummaryHeader(fmt: Format, headerText: string): string {
    if headerText != "" then headerText + fmt.header else ""
  }

  /** formatSummary: the header text, when set, opens the summary, and the list closer ends it. */
  function FormatSummary(displayMode: string, headerText: string, messages: seq<string>): (r: string)
    ensures headerText != "" ==> headerText <= r
  {
    var fmt := Formats(displayMode);
    SummaryHeader(fmt, headerText) + fmt.first + Items(fmt, messages) + fmt.last
  }

  /** Without HeaderText the summary opens with the list opener, and it always ends with the list closer. */
  lemma SummaryFrame(displayMode: string, headerText: string, messages: seq<string>)
    ensures headerText == "" ==> Formats(displayMode).first <= FormatSummary(displayMode, headerText, messages)
    ensures var r := FormatSummary(displayMode, headerText, messages);
            var last := Formats(displayMode).last;
            |last| <= |r| && r[|r| - |last|..] == last
  {
  }

  /** The summary body of a concatenation is the concatenation of the bodies. */
  lemma {:induction false} ItemsAppend(fmt: Format, a: seq<string>, b: seq<string>)
    ensures Items(fmt, a + b) == Items(fmt, a) + Items(fmt, b)
    decreases |a|
  {
    if a == [] {
      assert a + b == b;
    } else {
      assert (a + b)[0] == a[0];
      assert (a + b)[1..] == a[1..] + b;
      ItemsAppend(fmt, a[1..], b);
    }
  }

  /** formatSummary's own skipping of empty messages agrees with getMessages: filtering first changes nothing. */
  lemma {:induction false} ItemsIgnoreEmptyMessages(fmt: Format, messages: seq<string>)
    ensures Items(fmt, GetMessages(messages)) == Items(fmt, messages)
    decreases |messages|
  {
    if messages != [] {
      ItemsIgnoreEmptyMessages(fmt, messages[1..]);
      var rest := GetMessages(messages[1..]);
      if |messages[0]| > 0 {
        assert GetMessages(messages) == [messages[0]] + rest;
        assert ([messages[0]] + rest)[1..] == rest;
      }
    }
  }

  /** The bulleted list of one message, with and without a header. */
  lemma BulletListShape(headerText: string, message: string)
    requires |message| > 0
    ensures FormatSummary("BulletList", "", [message]) == "<ul><li>" + message + "</li></ul>"
    ensures FormatSummary("BulletList", headerText, []) == headerText + "<ul></ul>"
  {
    var fmt := Formats("BulletList");
    assert fmt == Format("", "<ul>", "<li>", "</li>", "</ul>");
    assert [message][1..] == [] && [message][0] == message;
    assert Items(fmt, []) == "";
    var item := Items(fmt, [message]);
    assert item == "<li>" + message + "</li>";
    assert "<ul><li>" == "<ul>" + "<li>" && "</li></ul>" == "</li>" + "</ul>";
    assert FormatSummary("BulletList", "", [message]) == "" + "<ul>" + item + "</ul>";
    assert FormatSummary("BulletList", headerText, []) == SummaryHeader(fmt, headerText) + "<ul>" + "" + "</ul>";
  }

  /** With no messages, the summary is only the header and the mode's frame. */
  lemma EmptySummary(displayMode: string, headerText: string)
    ensures FormatSummary(displayMode, headerText, []) ==
              SummaryHeader(Formats(displayMode), headerText) + Formats(displayMode).first + Formats(displayMode).last
  {
  }

  // ---------------------------------------------------------------- message box

  /** One message as formatMessageBox writes it in the given mode. */
  function BoxLine(displayMode: string, message: string): string {
    match displayMode
    case "List" => message + "\n"
    case "SingleParagraph" => message + " "
    case _ => "  - " + message + "\n"
  }

  /** All messages, in order, as formatMessageBox writes them. */
  function BoxLines(displayMode: string, messages: seq<string>): string {
    if messages == [] then "" else BoxLines(displayMode, messages[..|messages| - 1]) + BoxLine(displayMode, messages[|messages| - 1])
  }

  /** The message-box header: HeaderText and a line break, or nothing. */
  function BoxHeader(headerText: string): string {
    if headerText != "" then headerText + "\n" else ""
  }

  /** The first n messages as formatMessageBox writes them, counted by index. */
  function BoxLinesUpTo(displayMode: string, messages: seq<string>, n: nat): string
    requires n <= |messages|
  {
    if n == 0 then "" else BoxLinesUpTo(displayMode, messages, n - 1) + BoxLine(displayMode, messages[n - 1])
  }

  lemma {:induction false} BoxLinesUpToPrefix(displayMode: string, messages: seq<string>, n: nat)
    requires n <= |messages|
    ensures BoxLinesUpTo(displayMode, messages, n) == BoxLines(displayMode, messages[..n])
    decreases n
  {
    if n > 0 {
      BoxLinesUpToPrefix(displayMode, messages, n - 1);
      assert messages[..n][..n - 1] == messages[..n - 1];
    }
  }

  /** formatMessageBox: the header, then one piece per message, appended in a loop. */
  method FormatMessageBox(displayMode: string, headerText: string, messages: seq<string>) returns (output: string)
    ensures output == BoxHeader(headerText) + BoxLines(displayMode, messages)
  {
    output := BoxHeader(headerText);
    for i := 0 to |messages|
      invariant output == BoxHeader(headerText) + BoxLinesUpTo(displayMode, messages, i)
    {
      Text.AppendAssociates(BoxHeader(headerText), BoxLinesUpTo(displayMode, messages, i), BoxLine(displayMode, messages[i]));
      output := output + BoxLine(displayMode, messages[i]);
    }
    BoxLinesUpToPrefix(displayMode, messages, |messages|);
    assert messages[..|messages|] == messages;
  }

  /** How many times c occurs in s. */
  function Occurrences(s: string, c: char): nat {
    if s == [] then 0 else (if s[0] == c then 1 else 0) + Occurrences(s[1..], c)
  }

  lemma {:induction false} OccurrencesAppend(s: string, t: string, c: char)
    ensures Occurrences(s + t, c) == Occurrences(s, c) + Occurrences(t, c)
    decreases |s|
  {
    if s == [] {
      assert s + t == t;
    } else {
      assert (s + t)[0] == s[0];
      assert (s + t)[1..] == s[1..] + t;
      OccurrencesAppend(s[1..], t, c);
    }
  }

  /**
   * Outside SingleParagraph mode the message box has one line per message:
   * messages without line breaks give exactly one line break each.
   */
  lemma {:induction false} OneLinePerMessage(displayMode: string, messages: seq<string>)
    requires displayMode != "SingleParagraph"
    requires forall k :: 0 <= k < |messages| ==> Occurrences(messages[k], '\n') == 0
    ensures Occurrences(BoxLines(displayMode, messages), '\n') == |messages|
    decreases |messages|
  {
    if messages != [] {
      var init := messages[..|messages| - 1];
      var m := messages[|messages| - 1];
      OneLinePerMessage(displayMode, init);
      OccurrencesAppend(BoxLines(displayMode, init), BoxLine(displayMode, m), '\n');
      if displayMode == "List" {
        OccurrencesAppend(m, "\n", '\n');
      } else {
        OccurrencesAppend("  - " + m, "\n", '\n');
        OccurrencesAppend("  - ", m, '\n');
        assert Occurrences("  - ", '\n') == 0;
      }
      assert Occurrences("\n", '\n') == 1;
    }
  }

  /** In SingleParagraph mode the messages run on one line, separated by spaces. */
  lemma SingleParagraphBox(a: string, b: string)
    ensures BoxLines("SingleParagraph", [a, b]) == a + " " + b + " "
  {
    assert [a, b][..1] == [a];
    assert [a][..0] == [];
    assert BoxLines("SingleParagraph", [a]) == a + " ";
  }

  // ---------------------------------------------------------------- summary state

  /** A summary's options; its group is "" when it belongs to no group. */
  datatype SummaryOptions = SummaryOptions(
    id: string,
    group: string,
    showSummary: bool,      // only an explicit ShowSummary false turns the inline summary off
    showMessageBox: bool,   // only an explicit ShowMessageBox true turns the message box on
    headerText: string,
    displayMode: string,
    refresh: bool)          // only an explicit Refresh false stops updates on validator changes

  /** What a summary shows: whether it is visible, its inline HTML, and the message-box texts raised so far. */
  datatype SummaryView = SummaryView(visible: bool, html: string, alerts: seq<string>)

  /** hideSummary. */
  function HiddenView(v: SummaryView): (v': SummaryView)
    ensures !v'.visible && v'.html == v.html && v'.alerts == v.alerts
  {
    v.(visible := false)
  }

  /**
   * updateSummary: with no failed validators the summary hides when asked to
   * update or when it refreshes; otherwise, when it is asked to update, is
   * hidden or refreshes, it shows the messages inline and/or raises them in a
   * message box.
   */
  function UpdatedView(o: SummaryOptions, v: SummaryView, errorMessages: seq<string>, update: bool): (v': SummaryView)
    ensures |errorMessages| == 0 ==> v'.html == v.html && v'.alerts == v.alerts
    ensures v'.visible ==> v.visible || |errorMessages| > 0
    ensures |v.alerts| <= |v'.alerts| <= |v.alerts| + 1 && v'.alerts[..|v.alerts|] == v.alerts
    ensures !o.showMessageBox ==> v'.alerts == v.alerts
  {
    if |errorMessages| == 0 then
      (if update || o.refresh then HiddenView(v) else v)
    else if !(update || !v.visible || o.refresh) then v
    else
      var messages := GetMessages(errorMessages);
      SummaryView(
        v.visible || o.showSummary || o.showMessageBox,
        if o.showSummary then FormatSummary(o.displayMode, o.headerText, messages) else v.html,
        v.alerts + (if o.showMessageBox then [BoxHeader(o.headerText) + BoxLines(o.displayMode, messages)] else []))
  }

  /**
   * What one update does: with no errors the summary hides when asked to update
   * or when it refreshes; with errors and nothing forcing a refresh it stays as
   * it was; otherwise the inline HTML and the message box get the messages.
   */
  lemma UpdatedViewCases(o: SummaryOptions, v: SummaryView, errorMessages: seq<string>, update: bool)
    ensures var v' := UpdatedView(o, v, errorMessages, update);
            |errorMessages| == 0 ==> v' == (if update || o.refresh then HiddenView(v) else v)
    ensures var v' := UpdatedView(o, v, errorMessages, update);
            |errorMessages| > 0 && !update && v.visible && !o.refresh ==> v' == v
    ensures var v' := UpdatedView(o, v, errorMessages, update);
            var messages := GetMessages(errorMessages);
            |errorMessages| > 0 && (update || !v.visible || o.refresh) ==>
              v'.html == (if o.showSummary then FormatSummary(o.displayMode, o.headerText, messages) else v.html)
              && v'.alerts == v.alerts + (if o.showMessageBox then [BoxHeader(o.headerText) + BoxLines(o.displayMode, messages)] else [])
              && v'.visible == (v.visible || o.showSummary || o.showMessageBox)
  {
  }

  /** An update that is asked for always shows the current errors: the summary is visible exactly when something shows them. */
  lemma RequestedUpdateShowsErrors(o: SummaryOptions, v: SummaryView, errorMessages: seq<string>)
    requires |errorMessages| > 0 && (o.showSummary || o.showMessageBox)
    ensures UpdatedView(o, v, errorMessages, true).visible
    ensures o.showSummary ==>
              UpdatedView(o, v, errorMessages, true).html == FormatSummary(o.displayMode, o.headerText, GetMessages(errorMessages))
  {
  }

  /** A hidden summary is refreshed on any change, even when its Refresh option is off. */
  lemma HiddenSummaryAlwaysRefreshes(o: SummaryOptions, v: SummaryView, errorMessages: seq<string>)
    requires |errorMessages| > 0 && !v.visible && o.showSummary
    ensures UpdatedView(o, v, errorMessages, false).visible
    ensures UpdatedView(o, v, errorMessages, false).html == FormatSummary(o.displayMode, o.headerText, GetMessages(errorMessages))
  {
  }

  /** Without a message box, updating twice with the same errors is updating once. */
  lemma InlineUpdateIsIdempotent(o: SummaryOptions, v: SummaryView, errorMessages: seq<string>, update: bool)
    requires !o.showMessageBox
    ensures UpdatedView(o, UpdatedView(o, v, errorMessages, update), errorMessages, update) == UpdatedView(o, v, errorMessages, update)
  {
  }

  // ---------------------------------------------------------------- the summary object

  class Summary {
    const options: SummaryOptions

    var visible: bool
    var html: string
    var alerts: seq<string>

    /** What the summary shows, as one value. */
    function View(): SummaryView
      reads this
    {
      SummaryView(visible, html, alerts)
    }

    /** TValidationSummary.initialize: visible is what the page's style says. */
    constructor(options: SummaryOptions, visible: bool)
      ensures this.options == options
      ensures View() == SummaryView(visible, "", [])
    {
      this.options := options;
      this.visible := visible;
      html := "";
      alerts := [];
    }

    /** hideSummary. */
    method HideSummary()
      modifies this
      ensures View() == HiddenView(old(View()))
    {
      visible := false;
    }

    /** updateSummary, given the ErrorMessage options of the failed validators in order. */
    method UpdateSummary(errorMessages: seq<string>, update: bool)
      modifies this
      ensures View() == UpdatedView(options, old(View()), errorMessages, update)
    {
      UpdatedViewCases(options, View(), errorMessages, update);
      if |errorMessages| == 0 {
        if update || options.refresh {
          HideSummary();
        }
        return;
      }
      var doRefresh := update || !visible || options.refresh;
      if doRefresh {
        ShowMessages(GetMessages(errorMessages));
      }
    }

    /** The refreshing half of updateSummary: the messages go inline and/or into a message box. */
    method ShowMessages(messages: seq<string>)
      modifies this
      ensures View() == SummaryView(
                old(visible) || options.showSummary || options.showMessageBox,
                if options.showSummary then FormatSummary(options.displayMode, options.headerText, messages) else old(html),
                old(alerts) + if options.showMessageBox then [BoxHeader(options.headerText) + BoxLines(options.displayMode, messages)] else [])
    {
      if options.showSummary {
        html := FormatSummary(options.displayMode, options.headerText, messages);
      }
      if options.showMessageBox {
        var text := FormatMessageBox(options.displayMode, options.headerText, messages);
        alerts := alerts + [text];
      }
      visible := visible || options.showSummary || options.showMessageBox;
    }
  }
}
