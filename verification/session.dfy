/** The connection flag logic of the serial monitor: the Connect and
    Disconnect buttons, the shared teardown `close_serial`, and the Return
    key that sends the entry box. Whether the operating system lets a port
    be opened, written or closed is not decided here: each of those
    outcomes is an input. */
module Session {
  import Log
  import History

  /** `connected` is the `isConnected` flag the reader loop polls;
      `portOpen` is whether the current serial handle is open. */
  datatype Link = Link(connected: bool, portOpen: bool)

  /** Start-up, as the window's constructor sets it up: `serial.Serial()`
      made without a port, hence not open, and `isConnected` down. */
  const Idle: Link := Link(false, false)

  /** The flag is only up while the handle is open. */
  predicate Sound(l: Link) {
    l.connected ==> l.portOpen
  }

  /** How the open attempt in Connect ends: the handle opened; making the
      handle raised, so the old handle is kept; or making it worked but the
      close-and-reopen that follows raised, leaving a new handle that is
      not open. */
  datatype OpenOutcome = Opened | MakeFailed(reason: string) | ReopenFailed(reason: string)

  /** How releasing an open handle ends. */
  datatype CloseOutcome = Released | ReleaseFailed(reason: string)

  /** How writing the entry box to the port ends. */
  datatype WriteOutcome = Written | WriteFailed(reason: string)

  const ConnectErrorTitle := "Connect Error"
  const NoPortMessage := "No Serial Port selected from the list"
  const NoBaudrateMessage := "No Baudrate selected from the list"
  const CloseErrorTitle := "Close Serial Error"
  const SendErrorTitle := "Send Error"

  /** The Connect button (`btnConnect_click`) with the port and baud rate
      chosen in the two drop-downs. An empty port is refused first, then an
      empty baud rate, both before anything is opened and with no change.
      The flag goes up only when the open succeeds, and then the opening is
      logged; every failure shows one dialog and leaves the flag as it was. */
  function Connect(l: Link, port: string, baudrate: string, outcome: OpenOutcome, stamp: string): (r: (Link, seq<Log.Notice>))
    ensures port == [] ==> r == (l, [Log.Dialog(ConnectErrorTitle, NoPortMessage)])
    ensures port != [] && baudrate == [] ==> r == (l, [Log.Dialog(ConnectErrorTitle, NoBaudrateMessage)])
    ensures r.0.connected <==> l.connected || (port != [] && baudrate != [] && outcome.Opened?)
    ensures |r.1| == 1
    ensures r.1[0].Entry? <==> port != [] && baudrate != [] && outcome.Opened?
    ensures r.1[0].Entry? ==> r.0 == Link(true, true) && r.1[0].line == Log.Format(stamp, Log.Open, port)
  {
    if port == [] then
      (l, [Log.Dialog(ConnectErrorTitle, NoPortMessage)])
    else if baudrate == [] then
      (l, [Log.Dialog(ConnectErrorTitle, NoBaudrateMessage)])
    else
      match outcome
      case Opened => (Link(true, true), [Log.Entry(Log.Format(stamp, Log.Open, port))])
      case MakeFailed(reason) => (l, [Log.Dialog(ConnectErrorTitle, reason)])
      case ReopenFailed(reason) => (Link(l.connected, false), [Log.Dialog(ConnectErrorTitle, reason)])
  }

  /** `close_serial`: nothing at all unless the handle is open; otherwise
      the flag is lowered first, so it ends down whether or not the handle
      could be released. A failed release shows one dialog. */
  function CloseSerial(l: Link, outcome: CloseOutcome): (r: (Link, seq<Log.Notice>))
    ensures !l.portOpen ==> r == (l, [])
    ensures l.portOpen ==> !r.0.connected
    ensures l.portOpen && outcome.Released? ==> r == (Idle, [])
    ensures l.portOpen && outcome.ReleaseFailed? ==> r.1 == [Log.Dialog(CloseErrorTitle, outcome.reason)]
  {
    if l.portOpen then
      var lowered := Link(false, l.portOpen);
      match outcome
      case Released => (Link(false, false), [])
      case ReleaseFailed(reason) => (lowered, [Log.Dialog(CloseErrorTitle, reason)])
    else
      (l, [])
  }

  /** The Disconnect button (`btnDisconnect_click`): `close_serial`, then a
      closing line for the selected port, logged even when nothing was open
      and even when the release failed. From a sound state the flag ends
      down. */
  function Disconnect(l: Link, outcome: CloseOutcome, port: string, stamp: string): (r: (Link, seq<Log.Notice>))
    ensures Sound(l) ==> !r.0.connected
    ensures !l.portOpen ==> r.0 == l && r.1 == [Log.Entry(Log.Format(stamp, Log.Close, port))]
    ensures |r.1| >= 1 && r.1[|r.1| - 1] == Log.Entry(Log.Format(stamp, Log.Close, port))
  {
    var (closed, notices) := CloseSerial(l, outcome);
    (closed, notices + [Log.Entry(Log.Format(stamp, Log.Close, port))])
  }

  /** The Return key (`btnSend_click`): the entry box is written to the
      port as it stands, even when blank, and logged or reported; then the
      history is updated exactly as `History.Submit` says, whether or not
      the write worked. A write failure is not fatal: the link is not
      touched at all. */
  function Send(s: History.Recall, outcome: WriteOutcome, stamp: string): (r: (History.Recall, seq<Log.Notice>))
    ensures r.0 == History.Submit(s)
    ensures |r.1| == 1
    ensures outcome.Written? ==> r.1[0] == Log.Entry(Log.Format(stamp, Log.Send, s.entry))
    ensures outcome.WriteFailed? ==> r.1[0] == Log.Dialog(SendErrorTitle, outcome.reason)
  {
    var notice :=
      match outcome
      case Written => Log.Entry(Log.Format(stamp, Log.Send, s.entry))
      case WriteFailed(reason) => Log.Dialog(SendErrorTitle, reason);
    (History.Submit(s), [notice])
  }

  /** The sent line carries the entry box verbatim, surrounding whitespace
      included, although the history only records it when its stripped
      form is not empty. */
  lemma SendLogsVerbatim(s: History.Recall, stamp: string)
    requires |stamp| == 8
    ensures Send(s, Written, stamp).1[0].Entry?
    ensures Log.Parse(Send(s, Written, stamp).1[0].line) == Log.Some(Log.Record(stamp, Log.Send, s.entry))
  {
    Log.ParseFormat(stamp, Log.Send, s.entry);
  }

  /** Start-up is sound, and the buttons keep it so, provided Connect is
      pressed only while not connected (the window disables it while
      connected). */
  lemma SoundPreserved(l: Link, port: string, baudrate: string, attempt: OpenOutcome, release: CloseOutcome, stamp: string)
    requires Sound(l)
    ensures Sound(Idle)
    ensures Sound(CloseSerial(l, release).0)
    ensures Sound(Disconnect(l, release, port, stamp).0)
    ensures !l.connected ==> Sound(Connect(l, port, baudrate, attempt, stamp).0)
  {
  }

  /** Why Connect must stay disabled while connected: a failed reopen then
      leaves the flag up on a handle that is not open. */
  lemma ConnectWhileConnected(port: string, baudrate: string, reason: string, stamp: string)
    requires port != [] && baudrate != []
    ensures !Sound(Connect(Link(true, true), port, baudrate, ReopenFailed(reason), stamp).0)
  {
  }

  /** Closing is idempotent: once a handle has been released, closing again
      does nothing and shows nothing. */
  lemma CloseIdempotent(l: Link, first: CloseOutcome, second: CloseOutcome)
    requires first.Released? || !l.portOpen
    ensures CloseSerial(CloseSerial(l, first).0, second) == (CloseSerial(l, first).0, [])
  {
  }

  /** A session from start-up: Connect succeeds, Disconnect releases the
      handle. The link is back at start-up and the log holds the opening
      line and then the closing line for the same port, nothing else. */
  lemma OpenThenClose(port: string, baudrate: string, openStamp: string, closeStamp: string)
    requires port != [] && baudrate != []
    requires |openStamp| == 8 && |closeStamp| == 8
    ensures var (l1, n1) := Connect(Idle, port, baudrate, Opened, openStamp);
            var (l2, n2) := Disconnect(l1, Released, port, closeStamp);
            && l1 == Link(true, true) && l2 == Idle
            && |n1 + n2| == 2
            && Log.Parse((n1 + n2)[0].line) == Log.Some(Log.Record(openStamp, Log.Open, port))
            && Log.Parse((n1 + n2)[1].line) == Log.Some(Log.Record(closeStamp, Log.Close, port))
  {
    Log.ParseFormat(openStamp, Log.Open, port);
    Log.ParseFormat(closeStamp, Log.Close, port);
  }
}
