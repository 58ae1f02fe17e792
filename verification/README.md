# SerialMonitor command recall and connection logic, in Dafny

SerialMonitor is a small Tk terminal for a serial device: pick a port and a
baud rate, connect, watch incoming lines, type commands and send them, and
recall earlier commands with the Up and Down keys. This project models the
parts of `serialmonitor.py` that hold logic rather than widgets:

- **Command recall** (`history.dfy`, module `History`): the state
  `(history, index, entry)` — the list of sent commands, the recall cursor
  (-1 while not browsing) and the entry box text — with pure transitions
  `Up`, `Down`, `Submit` (the history half of Return) and `Edit` (typing).
  Python's `%` is modelled by `PyMod`; the proofs show it never wraps for a
  cursor in range, that Up clamps at the oldest command and Down releases
  the cursor past the newest, and that the cursor invariant
  `-1 <= index < |history|` survives any sequence of key events.
- **Whitespace stripping** (`text.dfy`, module `Text`): Python's
  `str.strip()` over the characters `str.isspace()` accepts, proved equal to
  a declarative definition (`StrippedAt`) and blank exactly when the text is
  all whitespace.
- **Log lines** (`log.dfy`, module `Log`): the `[HH:MM:SS] <verb> <payload>`
  output lines with the verbs `Open <>`, `Close ><`, `Send ->`, `Recv <-`, a
  parser for them and the round trip in both directions; dialogs are
  modelled as notices with a title and a message.
- **Reader** (`reader.dfy`, module `Reader`): the per-line filter of the
  background reader, and its loop over a series of reads with the buffer
  the code keeps. Both the loop as written and the corrected loop are
  proved to log one received line per non-blank line that reaches the
  output pane. In the loop as written, a line whose showing raised is
  carried over into the text of the next one (see "## Findings"). The
  corrected loop empties the buffer on that path too, logs each line on its
  own, and agrees with the loop as written whenever showing never raises.
- **Connection flag** (`session.dfy`, module `Session`): Connect, the shared
  teardown `close_serial`, Disconnect and the send half of Return, over a
  link `(connected, portOpen)`; the results of opening, writing and closing
  the port are inputs.

Behaviour the model keeps as the code has it, where a tidier reading would
differ:

- The cursor may rest on the newest command (`index == len - 1`), not only
  strictly below it.
- Down while not browsing clears the entry box (it is not a no-op).
- Received lines are stripped at both ends, not just trailing whitespace.
- A failed read, or a failure to show a received line, shows a dialog and
  the reader goes on; it does not end the session.
- Return writes the entry box even when it is blank, and records in history
  the text as typed (unstripped) only when its stripped form is not empty;
  a blank entry is not cleared.
- Disconnect always logs a closing line, even when no port was open or the
  release failed.

## Model

| member | source | states |
|---|---|---|
| History.PyMod | serialmonitor.py:205 | Python's `%` with a positive length lands in range, leaves an in-range value alone and wraps only below zero or at the length |
| History.Up | serialmonitor.py:197-207 | Up with no history or on the oldest command changes nothing; from not browsing it shows the newest command; from any other in-range position it moves exactly one step back; whenever Up moves the cursor (history not empty, cursor not on the oldest command), the entry shows the command under it |
| History.Down | serialmonitor.py:209-221 | Down with no history changes nothing; on the newest command or while not browsing it clears the entry and leaves the cursor at -1; from an interior position it moves exactly one step forward and shows that command |
| History.Submit | serialmonitor.py:191-195 | a non-blank entry is appended unstripped after the unchanged earlier commands, the cursor resets to -1 and the entry clears; an all-whitespace entry changes nothing |
| History.InitialValid | serialmonitor.py:21-22 | the start-up state has an empty history and the cursor at -1, which is in range |
| History.StepValid | serialmonitor.py:191-221 | each key event keeps the cursor in `-1 <= index < len` and only ever extends the history at the end, by at most one command |
| History.RunValid | serialmonitor.py:191-221 | from any valid state (the start-up state included), every sequence of key events keeps the cursor in range and every earlier command in place |
| History.UpThenDown | serialmonitor.py:197-221 | Up then Down from any position but the oldest returns the cursor to where it was |
| History.DownThenUp | serialmonitor.py:197-221 | Down then Up from a browsed position shows the same command again |
| History.UpsClamp | serialmonitor.py:197-207 | from not browsing, k presses of Up land on command `len - k`, and on the oldest command once k reaches the length: no wrap-around |
| History.DownsRelease | serialmonitor.py:209-221 | from a browsed position, k presses of Down move k commands forward, and once past the newest the cursor is -1 and the entry empty |
| History.RecordThree | serialmonitor.py:191-195 | typing and sending any three commands that are not all whitespace records them in order, as typed (surrounding whitespace kept), with the cursor at -1 and an empty entry |
| History.WalkThree | serialmonitor.py:197-221 | on a three-command history Up shows the newest, the middle and the oldest, then stays; Down then shows the middle, the newest, and finally clears |
| Text.SkipSpace | serialmonitor.py:107 | the forward scan of `strip` passes only whitespace and stops on the first non-whitespace character or at the end |
| Text.BackSpace | serialmonitor.py:107 | the backward scan of `strip` passes only whitespace and stops after the last non-whitespace character or at the start of the remaining text |
| Text.Strip | serialmonitor.py:107 | the result is a slice of the input with only whitespace outside it and non-whitespace at both of its ends |
| Text.StripUnique | serialmonitor.py:107 | any slice with only whitespace outside it and non-whitespace at its ends is what `strip` returns |
| Text.StripEmptyIff | serialmonitor.py:191-192 | the stripped text is empty exactly when the text is all whitespace |
| Text.StripIdempotent | serialmonitor.py:107 | stripping twice gives the same as stripping once |
| Log.Format | serialmonitor.py:166-167 | a log line starts with the stamp in brackets and a space, then the printed verb and a space, ends with the payload verbatim and a newline, and is five characters longer than stamp, verb and payload together |
| Log.ParseFormat | serialmonitor.py:166-167 | a log line with an eight-character stamp reads back as its stamp, verb and payload |
| Log.FormatParse | serialmonitor.py:110-111 | every line that reads back is exactly the log line of what it read, so the format is unambiguous |
| Reader.Receive | serialmonitor.py:107-113 | a line is logged as received exactly when it is not all whitespace, and what is logged is the line stripped at both ends; a failed read shows one dialog and is not fatal |
| Reader.PumpAsWritten | serialmonitor.py:102-117 | the loop as written shows at most two notices per read, and its only dialogs carry the Read Data Error title |
| Reader.Pump | serialmonitor.py:102-117 | the corrected loop, which also empties the buffer when showing a line raises, shows at most two notices per read, and its only dialogs carry the Read Data Error title |
| Reader.PumpIsReceiveAll | serialmonitor.py:103-115 | in the corrected loop the buffer never carries text from one line into the next, so it logs exactly the per-line filter of each read, in order, a display failure included |
| Reader.AsWrittenAgrees | serialmonitor.py:106-115 | when showing a line never raises, the loop as written and the corrected loop show the same notices |
| Reader.DisplayFailureCarriesOver | serialmonitor.py:106-115 | in the loop as written, when showing a non-blank line raises before it reaches the pane, the next non-blank line is logged with the first glued in front of it, where the corrected loop logs it alone |
| Reader.OneEntryPerLineAsWritten | serialmonitor.py:104-117 | the loop as written, whatever its buffer holds, logs one received line per non-blank line that reaches the output pane, none for blank lines, timeouts, failed reads or lines whose showing failed first |
| Reader.OneEntryPerLine | serialmonitor.py:104-117 | the corrected loop logs one received line per non-blank line that reaches the output pane, none for blank lines, timeouts, failed reads or lines whose showing failed first |
| Session.Connect | serialmonitor.py:147-170 | an empty port, then an empty baud rate, is refused with one dialog and no change; the flag goes up only if the open succeeds, and then the opening is logged; on failure the flag is unchanged |
| Session.CloseSerial | serialmonitor.py:121-131 | nothing happens unless the handle is open; otherwise the flag ends down whether or not the release succeeded, and a failed release shows one dialog |
| Session.Disconnect | serialmonitor.py:172-179 | from a sound state the flag ends down, and a closing line for the port is always logged last |
| Session.Send | serialmonitor.py:181-195 | the entry is logged as sent or a write error is shown, and the history is updated the same way whatever the write outcome |
| Session.SendLogsVerbatim | serialmonitor.py:182-186 | the logged sent line carries the entry text verbatim, whitespace included |
| Session.SoundPreserved | serialmonitor.py:121-170 | "connected implies the port is open" holds at start-up and after Close and Disconnect, and after Connect pressed while not connected |
| Session.ConnectWhileConnected | serialmonitor.py:158-170 | a failed reopen pressed while connected would leave the flag up on a closed handle, which is why the window disables Connect while connected |
| Session.CloseIdempotent | serialmonitor.py:121-131 | after a successful release, closing again does nothing and shows nothing |
| Session.OpenThenClose | serialmonitor.py:147-179 | connect then disconnect from start-up returns the link to start-up and logs exactly an opening line then a closing line for the port |

## Left out

- Widgets, layout, theming, window title, `enable_components`/`disable_components`, the output pane's scrolling, `btnClear_click` and the `update_interface` timer: display only. The readonly and disabled states of the entry box are not modelled; the recall model treats the box as editable, as it is while connected.
- pyserial calls (`Serial(...)`, `open`, `close`, `readline`, `write`, `cancel_read`) and port listing (`get_serialports`): foreign code. Their outcomes are inputs (`OpenOutcome`, `CloseOutcome`, `WriteOutcome`, `Reader.Read`).
- The reader thread, `thread.join`, the daemon flag, the `while self.isConnected` and `is_open` guards of the loop and its 0.2 s sleep: concurrency and timing. `Reader.PumpAsWritten` (and the corrected `Reader.Pump`) model the reads that happen while the loop runs; which reads happen is an input.
- UTF-8 decoding with `errors="ignore"` and the wall-clock stamps: library and clock behaviour; the decoded line and the stamp are inputs.
- `close_app` and `sys.exit`: process teardown.
- Session.Connect: `int(baudrate)` raising `ValueError` on a non-numeric baud rate is not modelled (the drop-down only offers numbers); the handle and timeout of the new port are not tracked beyond whether it is open.
- Session.CloseSerial: when releasing the handle fails, its open state is taken as unchanged; pyserial decides the real state.
- Reader.PumpIsReceiveAll: it is about the corrected loop; the loop as written agrees with it only while showing never raises (`Reader.AsWrittenAgrees`), see "## Findings".
- Log.ParseFormat: reading a line back relies on the eight-character stamp `%H:%M:%S` produces; the stamp is otherwise an opaque string.

## Findings

| source | as written | input that shows it | evidently intended | confidence | as-written member | corrected member |
|---|---|---|---|---|---|---|
| serialmonitor.py:106-115 | `buf = ''` sits inside the `try` after the calls that show the line, so when showing raises the buffer keeps the line | a non-blank line `a` whose showing raises before it is inserted, then a non-blank line `b`: `b` is logged as `a` followed by `b` | every received line is shown on its own; the buffer is emptied on every path | medium, not executed | Reader.DisplayFailureCarriesOver | Reader.PumpIsReceiveAll |
