/** The lines the serial monitor appends to its output pane, and the error
    dialogs it pops up. A log line reads `[<stamp>] <verb> <payload>` followed
    by a newline; the stamp is the wall-clock time rendered by
    `strftime('%H:%M:%S')`, which the model takes as a given string. */
module Log {

  datatype Option<T> = None | Some(value: T)

  /** The four kinds of log line: port opened, port closed, text sent,
      line received. */
  datatype Verb = Open | Close | Send | Recv

  /** What the program shows the user: a line in the output pane, or a
      modal error dialog with a title and a message. */
  datatype Notice = Entry(line: string) | Dialog(title: string, message: string)

  /** A log line taken apart. */
  datatype Record = Record(stamp: string, verb: Verb, payload: string)

  /** The verb as it is printed, arrow included. */
  function Arrow(v: Verb): (a: string)
    ensures |a| >= 7
  {
    match v
    case Open => "Open <>"
    case Close => "Close ><"
    case Send => "Send ->"
    case Recv => "Recv <-"
  }

  /** The text of one log line: the stamp in brackets at the front, the
      printed verb and a space after it, the payload verbatim at the end,
      then a newline. */
  function Format(stamp: string, v: Verb, payload: string): (line: string)
    ensures |line| == |stamp| + |Arrow(v)| + |payload| + 5
    ensures line[0] == '[' && line[1..|stamp| + 1] == stamp
    ensures line[|stamp| + 1..|stamp| + 3] == "] "
    ensures line[|stamp| + 3..|stamp| + 4 + |Arrow(v)|] == Arrow(v) + " "
    ensures line[|line| - 1] == '\n' && line[|line| - 1 - |payload|..|line| - 1] == payload
  {
    var front := "[" + stamp + "] ";
    var line := front + Arrow(v) + " " + payload + "\n";
    assert line[..|front|] == front;
    line
  }

  /** The verb a log line's body starts with, if any: the printed arrow
      followed by one space. */
  function VerbOf(body: string): (r: Option<Verb>)
    ensures r.Some? ==> Arrow(r.value) + " " <= body
  {
    if Arrow(Open) + " " <= body then Some(Open)
    else if Arrow(Close) + " " <= body then Some(Close)
    else if Arrow(Send) + " " <= body then Some(Send)
    else if Arrow(Recv) + " " <= body then Some(Recv)
    else None
  }

  /** Reads a log line back, for a stamp of the eight characters `HH:MM:SS`
      always has. */
  function Parse(line: string): Option<Record> {
    if |line| < 12 || line[0] != '[' || line[9..11] != "] " || line[|line| - 1] != '\n' then None
    else
      var body := line[11..|line| - 1];
      match VerbOf(body)
      case None => None
      case Some(v) => Some(Record(line[1..9], v, body[|Arrow(v)| + 1..]))
  }

  /** Distinct verbs differ in their first character, so a body names at
      most one verb. */
  lemma VerbOfArrow(v: Verb, payload: string)
    ensures VerbOf(Arrow(v) + " " + payload) == Some(v)
  {
    var body := Arrow(v) + " " + payload;
    assert body[0] == Arrow(v)[0];
  }

  /** Every log line with a clock-shaped stamp reads back as what was
      written: stamp, verb and payload. */
  lemma ParseFormat(stamp: string, v: Verb, payload: string)
    requires |stamp| == 8
    ensures Parse(Format(stamp, v, payload)) == Some(Record(stamp, v, payload))
  {
    var line := Format(stamp, v, payload);
    var body := Arrow(v) + " " + payload;
    var head := "[" + stamp + "] ";
    assert |head| == 11;
    assert line == head + body + "\n";
    assert |line| == 12 + |body|;
    assert line[0] == '[';
    assert line[|line| - 1] == '\n';
    assert line[..11] == head;
    assert line[1..9] == head[1..9] == stamp;
    assert line[9..11] == head[9..11] == "] ";
    assert line[11..|line| - 1] == body;
    VerbOfArrow(v, payload);
    assert body[|Arrow(v)| + 1..] == payload;
  }

  /** Conversely, every line that parses is exactly the formatted record,
      so the format loses nothing. */
  lemma FormatParse(line: string)
    requires Parse(line).Some?
    ensures |Parse(line).value.stamp| == 8
    ensures Format(Parse(line).value.stamp, Parse(line).value.verb, Parse(line).value.payload) == line
  {
    var rec := Parse(line).value;
    var body := line[11..|line| - 1];
    Framed(line);
    assert body == Arrow(rec.verb) + " " + rec.payload by {
      assert Arrow(rec.verb) + " " <= body;
    }
    FormatPieces(rec.stamp, rec.verb, rec.payload);
  }

  /** A log line is its frame around the arrow, a space and the payload. */
  lemma FormatPieces(stamp: string, v: Verb, payload: string)
    ensures Format(stamp, v, payload) == "[" + stamp + "] " + (Arrow(v) + " " + payload) + "\n"
  {
  }

  /** A line with the brackets, the separator and the newline where a log
      line has them is made of exactly those pieces. */
  lemma Framed(line: string)
    requires |line| >= 12 && line[0] == '[' && line[9..11] == "] " && line[|line| - 1] == '\n'
    ensures line == "[" + line[1..9] + "] " + line[11..|line| - 1] + "\n"
  {
    assert line == line[..1] + line[1..9] + line[9..11] + line[11..|line| - 1] + line[|line| - 1..];
  }
}
