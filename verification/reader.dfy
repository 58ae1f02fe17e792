/** The body of the background reader (`read_data`): each read yields a
    decoded line or an exception; a line whose stripped text is not empty is
    shown as received, and an exception, whether raised by the read or by
    showing the line, is reported in a dialog while reading goes on. */
module Reader {
  import Text
  import Log

  /** One pass of the read loop while the port is open, as its outcome:
      - `Line`: the decoded line, with the wall-clock stamp taken when it
        arrived (an empty line stands for a read that timed out);
      - `Failed`: `readline` raised, with the exception's message;
      - `ShowFailed`: the line was read, but showing it raised, either before
        it reached the output pane or, when `inserted`, after. Showing is only
        attempted for a non-blank line, so on a blank one this outcome is
        the same as `Line`. */
  datatype Read =
    | Line(text: string, stamp: string)
    | Failed(reason: string)
    | ShowFailed(text: string, stamp: string, inserted: bool, reason: string)

  /** Title of the dialog a failed read raises. */
  const ReadErrorTitle := "Read Data Error"

  /** The notices of a series of reads contain nothing but received lines
      and read-error dialogs. */
  predicate OnlyReaderNotices(out: seq<Log.Notice>) {
    forall k :: 0 <= k < |out| && out[k].Dialog? ==> out[k].title == ReadErrorTitle
  }

  /** What one read shows the user when every line is shown on its own. A
      line is shown exactly when it is not all whitespace, and what is shown
      is the line with its surrounding whitespace removed; a failure is
      reported in one dialog and is not fatal. */
  function Receive(r: Read): (out: seq<Log.Notice>)
    ensures |out| <= 2
    ensures r.Failed? ==> out == [Log.Dialog(ReadErrorTitle, r.reason)]
    ensures r.Line? ==> |out| <= 1 && (|out| == 1 <==> !Text.AllSpace(r.text))
    ensures r.Line? && |out| == 1 ==> out[0] == Log.Entry(Log.Format(r.stamp, Log.Recv, Text.Strip(r.text)))
    ensures r.ShowFailed? ==> (out == [] <==> Text.AllSpace(r.text))
    ensures r.ShowFailed? && out != [] ==> out[|out| - 1] == Log.Dialog(ReadErrorTitle, r.reason)
    ensures r.ShowFailed? && out != [] ==> (|out| == 2 <==> r.inserted)
    ensures r.ShowFailed? && |out| == 2 ==> out[0] == Log.Entry(Log.Format(r.stamp, Log.Recv, Text.Strip(r.text)))
  {
    Text.StripEmptyIff(if r.Failed? then "" else r.text);
    match r
    case Line(text, stamp) =>
      var data := Text.Strip(text);
      if data != [] then [Log.Entry(Log.Format(stamp, Log.Recv, data))] else []
    case Failed(reason) => [Log.Dialog(ReadErrorTitle, reason)]
    case ShowFailed(text, stamp, inserted, reason) =>
      var data := Text.Strip(text);
      if data != [] then
        (if inserted then [Log.Entry(Log.Format(stamp, Log.Recv, data))] else [])
        + [Log.Dialog(ReadErrorTitle, reason)]
      else []
  }

  /** The notices of a series of reads, one read at a time. */
  function ReceiveAll(input: seq<Read>): seq<Log.Notice> {
    if |input| == 0 then [] else Receive(input[0]) + ReceiveAll(input[1..])
  }

  /** The read loop as written: each non-blank line is appended to a buffer
      `buf`, the buffer is shown, then emptied. The emptying sits inside the
      same `try` as the showing, so when showing raises, the buffer keeps
      the line and the next line is appended to it. */
  function PumpAsWritten(input: seq<Read>, buf: string): (out: seq<Log.Notice>)
    ensures |out| <= 2 * |input|
    ensures OnlyReaderNotices(out)
    decreases |input|
  {
    if |input| == 0 then []
    else
      match input[0]
      case Line(text, stamp) =>
        var data := Text.Strip(text);
        if data != [] then
          var shown := buf + data;
          [Log.Entry(Log.Format(stamp, Log.Recv, shown))] + PumpAsWritten(input[1..], "")
        else
          PumpAsWritten(input[1..], buf)
      case Failed(reason) =>
        [Log.Dialog(ReadErrorTitle, reason)] + PumpAsWritten(input[1..], buf)
      case ShowFailed(text, stamp, inserted, reason) =>
        var data := Text.Strip(text);
        if data != [] then
          var shown := buf + data;
          (if inserted then [Log.Entry(Log.Format(stamp, Log.Recv, shown))] else [])
          + [Log.Dialog(ReadErrorTitle, reason)] + PumpAsWritten(input[1..], shown)
        else
          PumpAsWritten(input[1..], buf)
  }

  /** The read loop with the buffer emptied on every path out of a
      non-blank line, including a failure to show it: each line is shown
      on its own. */
  function Pump(input: seq<Read>, buf: string): (out: seq<Log.Notice>)
    ensures |out| <= 2 * |input|
    ensures OnlyReaderNotices(out)
    decreases |input|
  {
    if |input| == 0 then []
    else
      match input[0]
      case Line(text, stamp) =>
        var data := Text.Strip(text);
        if data != [] then
          var shown := buf + data;
          [Log.Entry(Log.Format(stamp, Log.Recv, shown))] + Pump(input[1..], "")
        else
          Pump(input[1..], buf)
      case Failed(reason) =>
        [Log.Dialog(ReadErrorTitle, reason)] + Pump(input[1..], buf)
      case ShowFailed(text, stamp, inserted, reason) =>
        var data := Text.Strip(text);
        if data != [] then
          var shown := buf + data;
          (if inserted then [Log.Entry(Log.Format(stamp, Log.Recv, shown))] else [])
          + [Log.Dialog(ReadErrorTitle, reason)] + Pump(input[1..], "")
        else
          Pump(input[1..], buf)
  }

  /** With the buffer emptied on every path, it starts empty and never
      carries text from one line into the next: the loop shows exactly the
      stripped lines, one read at a time. */
  lemma {:induction false} PumpIsReceiveAll(input: seq<Read>)
    ensures Pump(input, "") == ReceiveAll(input)
    decreases |input|
  {
    if |input| > 0 {
      PumpIsReceiveAll(input[1..]);
      match input[0]
      case Line(text, stamp) =>
        assert "" + Text.Strip(text) == Text.Strip(text);
      case Failed(reason) =>
      case ShowFailed(text, stamp, inserted, reason) =>
        assert "" + Text.Strip(text) == Text.Strip(text);
    }
  }

  /** As long as showing a line never raises, the loop as written is the
      loop with the buffer always emptied. */
  lemma {:induction false} AsWrittenAgrees(input: seq<Read>, buf: string)
    requires forall k :: 0 <= k < |input| ==> !input[k].ShowFailed?
    ensures PumpAsWritten(input, buf) == Pump(input, buf)
    decreases |input|
  {
    if |input| > 0 {
      AsWrittenAgrees(input[1..], "");
      AsWrittenAgrees(input[1..], buf);
    }
  }

  /** The loop as written, when showing a non-blank line `a` raises before
      it reaches the pane and a non-blank line `b` follows: `b` is shown
      with `a` glued in front of it, where each line on its own would show
      just `b`. */
  lemma DisplayFailureCarriesOver(a: string, b: string, t1: string, t2: string, reason: string)
    requires !Text.AllSpace(a) && !Text.AllSpace(b)
    ensures var input := [ShowFailed(a, t1, false, reason), Line(b, t2)];
            && PumpAsWritten(input, "")
               == [Log.Dialog(ReadErrorTitle, reason), Log.Entry(Log.Format(t2, Log.Recv, Text.Strip(a) + Text.Strip(b)))]
            && Pump(input, "")
               == [Log.Dialog(ReadErrorTitle, reason), Log.Entry(Log.Format(t2, Log.Recv, Text.Strip(b)))]
            && Text.Strip(a) + Text.Strip(b) != Text.Strip(b)
  {
    CarriedAsWritten(a, b, t1, t2, reason);
    NotCarried(a, b, t1, t2, reason);
    Text.StripEmptyIff(a);
    assert |Text.Strip(a) + Text.Strip(b)| > |Text.Strip(b)|;
  }

  /** The loop as written, on a failed showing of `a` followed by `b`. */
  lemma CarriedAsWritten(a: string, b: string, t1: string, t2: string, reason: string)
    requires !Text.AllSpace(a) && !Text.AllSpace(b)
    ensures PumpAsWritten([ShowFailed(a, t1, false, reason), Line(b, t2)], "")
         == [Log.Dialog(ReadErrorTitle, reason), Log.Entry(Log.Format(t2, Log.Recv, Text.Strip(a) + Text.Strip(b)))]
  {
    Text.StripEmptyIff(a);
    Text.StripEmptyIff(b);
    var da := Text.Strip(a);
    var input := [ShowFailed(a, t1, false, reason), Line(b, t2)];
    var rest := [Line(b, t2)];
    assert input[1..] == rest && rest[1..] == [];
    assert PumpAsWritten(input, "") == [Log.Dialog(ReadErrorTitle, reason)] + PumpAsWritten(rest, "" + da);
    assert "" + da == da;
  }

  /** The corrected loop, on the same reads, shows `b` on its own. */
  lemma NotCarried(a: string, b: string, t1: string, t2: string, reason: string)
    requires !Text.AllSpace(a) && !Text.AllSpace(b)
    ensures Pump([ShowFailed(a, t1, false, reason), Line(b, t2)], "")
         == [Log.Dialog(ReadErrorTitle, reason), Log.Entry(Log.Format(t2, Log.Recv, Text.Strip(b)))]
  {
    Text.StripEmptyIff(a);
    Text.StripEmptyIff(b);
    var input := [ShowFailed(a, t1, false, reason), Line(b, t2)];
    var rest := [Line(b, t2)];
    assert input[1..] == rest && rest[1..] == [];
    assert "" + Text.Strip(b) == Text.Strip(b);
  }

  /** Number of reads whose line, not all whitespace, reaches the output
      pane. */
  function ShownLines(input: seq<Read>): nat {
    if |input| == 0 then 0
    else
      var shown := match input[0]
        case Line(text, _) => !Text.AllSpace(text)
        case Failed(_) => false
        case ShowFailed(text, _, inserted, _) => inserted && !Text.AllSpace(text);
      (if shown then 1 else 0) + ShownLines(input[1..])
  }

  /** Number of received-line entries among some notices. */
  function RecvEntries(out: seq<Log.Notice>): nat {
    if |out| == 0 then 0
    else
      var hit := out[0].Entry? && Log.Parse(out[0].line).Some? && Log.Parse(out[0].line).value.verb == Log.Recv;
      (if hit then 1 else 0) + RecvEntries(out[1..])
  }

  lemma {:induction false} RecvEntriesAppend(a: seq<Log.Notice>, b: seq<Log.Notice>)
    ensures RecvEntries(a + b) == RecvEntries(a) + RecvEntries(b)
    decreases |a|
  {
    if |a| == 0 {
      assert a + b == b;
    } else {
      assert (a + b)[0] == a[0];
      assert (a + b)[1..] == a[1..] + b;
      RecvEntriesAppend(a[1..], b);
    }
  }

  /** With clock-shaped stamps, the loop as written, whatever its buffer
      holds, logs one received line per non-blank line that reaches the
      output pane: a carried-over buffer changes what is logged, never how
      many lines are. */
  lemma {:induction false} OneEntryPerLineAsWritten(input: seq<Read>, buf: string)
    requires forall k :: 0 <= k < |input| && !input[k].Failed? ==> |input[k].stamp| == 8
    ensures RecvEntries(PumpAsWritten(input, buf)) == ShownLines(input)
    decreases |input|
  {
    if |input| > 0 {
      var rest := input[1..];
      match input[0]
      case Line(text, stamp) =>
        Text.StripEmptyIff(text);
        var data := Text.Strip(text);
        if data != [] {
          OneEntryPerLineAsWritten(rest, "");
          Log.ParseFormat(stamp, Log.Recv, buf + data);
          RecvEntriesAppend([Log.Entry(Log.Format(stamp, Log.Recv, buf + data))], PumpAsWritten(rest, ""));
        } else {
          OneEntryPerLineAsWritten(rest, buf);
        }
      case Failed(reason) =>
        OneEntryPerLineAsWritten(rest, buf);
        RecvEntriesAppend([Log.Dialog(ReadErrorTitle, reason)], PumpAsWritten(rest, buf));
      case ShowFailed(text, stamp, inserted, reason) =>
        Text.StripEmptyIff(text);
        var data := Text.Strip(text);
        if data != [] {
          var shown := buf + data;
          var entry := Log.Entry(Log.Format(stamp, Log.Recv, shown));
          var dialog := Log.Dialog(ReadErrorTitle, reason);
          var front := (if inserted then [entry] else []) + [dialog];
          OneEntryPerLineAsWritten(rest, shown);
          RecvEntriesAppend(front, PumpAsWritten(rest, shown));
          assert RecvEntries([dialog]) == 0;
          if inserted {
            Log.ParseFormat(stamp, Log.Recv, shown);
            RecvEntriesAppend([entry], [dialog]);
          } else {
            assert front == [dialog];
          }
        } else {
          OneEntryPerLineAsWritten(rest, buf);
        }
    }
  }

  /** With clock-shaped stamps, the loop shows one received line per
      non-blank line that reaches the pane: no duplicates, none dropped,
      and nothing for blank lines, timeouts or failed reads. */
  lemma {:induction false} OneEntryPerLine(input: seq<Read>)
    requires forall k :: 0 <= k < |input| && !input[k].Failed? ==> |input[k].stamp| == 8
    ensures RecvEntries(Pump(input, "")) == ShownLines(input)
    decreases |input|
  {
    PumpIsReceiveAll(input);
    if |input| > 0 {
      OneEntryPerLine(input[1..]);
      PumpIsReceiveAll(input[1..]);
      RecvEntriesAppend(Receive(input[0]), ReceiveAll(input[1..]));
      match input[0]
      case Line(text, stamp) =>
        if !Text.AllSpace(text) {
          Log.ParseFormat(stamp, Log.Recv, Text.Strip(text));
        }
      case Failed(reason) =>
      case ShowFailed(text, stamp, inserted, reason) =>
        if !Text.AllSpace(text) {
          Log.ParseFormat(stamp, Log.Recv, Text.Strip(text));
          var out := Receive(input[0]);
          assert RecvEntries([out[|out| - 1]]) == 0;
          if inserted {
            assert out == [out[0]] + [out[1]];
            RecvEntriesAppend([out[0]], [out[1]]);
          }
        }
    }
  }
}
