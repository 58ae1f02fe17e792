/** Command recall on the serial monitor's input line: the commands sent so
    far, a cursor into them, and the text in the entry box. Up and Down walk
    the cursor through the history, Return records the entry. */
module History {
  import Text

  /** `history` is `cmd_history`, `index` is `current_cmd_index` (-1 while
      the user is not browsing), `entry` is the entry box's text. */
  datatype Recall = Recall(history: seq<string>, index: int, entry: string)

  /** Start-up state: no history, not browsing, empty entry box. */
  const Initial: Recall := Recall([], -1, "")

  /** The cursor is -1 or points at a recorded command. */
  predicate Valid(s: Recall) {
    -1 <= s.index < |s.history|
  }

  /** Python's `a % n` for a positive modulus: the floor-division remainder.
      It agrees with Dafny's Euclidean `%` when `n > 0`; the ensures record
      when it leaves `a` alone and when it wraps. */
  function PyMod(a: int, n: int): (r: int)
    requires n > 0
    ensures 0 <= r < n
    ensures 0 <= a < n ==> r == a
    ensures -n <= a < 0 ==> r == a + n
    ensures a == n ==> r == 0
  {
    a % n
  }

  /** The Up key (`key_up_pressed`). */
  function Up(s: Recall): (r: Recall)
    ensures r.history == s.history
    ensures |s.history| == 0 || s.index == 0 ==> r == s
    ensures |s.history| > 0 && s.index == -1 ==> r.index == |s.history| - 1
    ensures 0 < s.index < |s.history| ==> r.index == s.index - 1
    ensures |s.history| > 0 && s.index != 0 ==> 0 <= r.index < |s.history| && r.entry == s.history[r.index]
  {
    var n := |s.history|;
    if n > 0 && s.index != 0 then
      if s.index == -1 then
        Recall(s.history, n - 1, s.history[n - 1])
      else
        var i := PyMod(s.index - 1, n);
        Recall(s.history, i, s.history[i])
    else
      s
  }

  /** The Down key (`key_down_pressed`). Unlike Up, it clears the entry box
      even when the user is not browsing. */
  function Down(s: Recall): (r: Recall)
    ensures r.history == s.history
    ensures |s.history| == 0 ==> r == s
    ensures |s.history| > 0 && (s.index == -1 || s.index == |s.history| - 1) ==> r.index == -1 && r.entry == ""
    ensures 0 <= s.index < |s.history| - 1 ==> r.index == s.index + 1 && r.entry == s.history[s.index + 1]
    ensures |s.history| > 0 ==> -1 <= r.index < |s.history| && (r.index >= 0 ==> r.entry == s.history[r.index])
  {
    var n := |s.history|;
    if n > 0 then
      if s.index != n - 1 then
        if s.index == -1 then
          Recall(s.history, s.index, "")
        else
          var i := PyMod(s.index + 1, n);
          // the entry is cleared, then refilled under an `i < n` guard
          Recall(s.history, i, if i < n then s.history[i] else "")
      else
        Recall(s.history, -1, "")
    else
      s
  }

  /** The user types or edits the entry box; the cursor is not touched. */
  function Edit(s: Recall, text: string): Recall {
    Recall(s.history, s.index, text)
  }

  /** The history half of Return (`btnSend_click`): a command that is not
      all whitespace is recorded as typed (surrounding whitespace kept), the
      cursor is reset and the entry box cleared; a blank one changes
      nothing, not even the entry box. */
  function Submit(s: Recall): (r: Recall)
    ensures Text.AllSpace(s.entry) ==> r == s
    ensures !Text.AllSpace(s.entry) ==> r.history == s.history + [s.entry] && r.index == -1 && r.entry == ""
  {
    Text.StripEmptyIff(s.entry);
    var command := Text.Strip(s.entry);
    if command != [] then Recall(s.history + [s.entry], -1, "") else s
  }

  /** One key event on the entry box. */
  datatype Key = UpKey | DownKey | Return | Type(text: string)

  /** The entry box's key bindings: `<Up>` runs `key_up_pressed`, `<Down>`
      runs `key_down_pressed`, `<Return>` runs `btnSend_click` (its history
      half), and any other key edits the text. */
  function Step(s: Recall, k: Key): Recall {
    match k
    case UpKey => Up(s)
    case DownKey => Down(s)
    case Return => Submit(s)
    case Type(text) => Edit(s, text)
  }

  /** A run of key events, applied left to right. */
  function Run(s: Recall, keys: seq<Key>): Recall
    decreases |keys|
  {
    if |keys| == 0 then s else Run(Step(s, keys[0]), keys[1..])
  }

  /** The start-up state keeps the cursor in range. */
  lemma InitialValid()
    ensures Valid(Initial) && Initial.history == [] && Initial.index == -1
  {
  }

  /** Every key event keeps the cursor in range, and never removes or
      rewrites a recorded command: history only grows at the end. */
  lemma StepValid(s: Recall, k: Key)
    requires Valid(s)
    ensures Valid(Step(s, k))
    ensures s.history <= Step(s, k).history
    ensures |Step(s, k).history| <= |s.history| + 1
  {
  }

  /** From the start-up state, any sequence of key events keeps the cursor
      in range and keeps every earlier command where it was. */
  lemma {:induction false} RunValid(s: Recall, keys: seq<Key>)
    requires Valid(s)
    ensures Valid(Run(s, keys))
    ensures s.history <= Run(s, keys).history
    decreases |keys|
  {
    if |keys| > 0 {
      StepValid(s, keys[0]);
      RunValid(Step(s, keys[0]), keys[1..]);
    }
  }

  /** Up from any position but the oldest, then Down, puts the cursor back
      where it was: the `%` in both handlers never wraps for a valid cursor. */
  lemma UpThenDown(s: Recall)
    requires Valid(s) && |s.history| > 0 && s.index != 0
    ensures Down(Up(s)).index == s.index
    ensures s.index > 0 ==> Down(Up(s)).entry == s.history[s.index]
    ensures s.index == -1 ==> Down(Up(s)).entry == ""
  {
  }

  /** Down from a browsed position, then Up, shows the same command again. */
  lemma DownThenUp(s: Recall)
    requires Valid(s) && s.index >= 0
    ensures Up(Down(s)).index == s.index
    ensures Up(Down(s)).entry == s.history[s.index]
  {
  }

  /** `k` presses of Up. */
  function Ups(s: Recall, k: nat): Recall {
    if k == 0 then s else Up(Ups(s, k - 1))
  }

  /** `k` presses of Down. */
  function Downs(s: Recall, k: nat): Recall {
    if k == 0 then s else Down(Downs(s, k - 1))
  }

  /** Starting from the newest end, `k` presses of Up walk back `k` commands
      and then stay on the oldest one: the cursor clamps, it never wraps. */
  lemma {:induction false} UpsClamp(s: Recall, k: nat)
    requires |s.history| > 0 && s.index == -1
    ensures Ups(s, k).history == s.history
    ensures k == 0 ==> Ups(s, k) == s
    ensures k > 0 ==> Ups(s, k).index == (if k <= |s.history| then |s.history| - k else 0)
    ensures k > 0 ==> Ups(s, k).entry == s.history[Ups(s, k).index]
  {
    if k > 0 {
      UpsClamp(s, k - 1);
    }
  }

  /** From a browsed position, Down walks forward one command per press
      until it passes the newest one; from then on the cursor stays at -1
      and the entry box is empty. */
  lemma {:induction false} DownsRelease(s: Recall, k: nat)
    requires 0 <= s.index < |s.history|
    ensures Downs(s, k).history == s.history
    ensures s.index + k < |s.history| ==> Downs(s, k).index == s.index + k
    ensures k > 0 && s.index + k < |s.history| ==> Downs(s, k).entry == s.history[s.index + k]
    ensures s.index + k >= |s.history| ==> Downs(s, k).index == -1 && Downs(s, k).entry == ""
  {
    if k > 0 {
      DownsRelease(s, k - 1);
    }
  }

  /** Typing and sending three non-blank commands records them, as typed
      and in order, leaves the user not browsing and the entry box empty. */
  lemma RecordThree(a: string, b: string, c: string)
    requires !Text.AllSpace(a) && !Text.AllSpace(b) && !Text.AllSpace(c)
    ensures Run(Initial, [Type(a), Return, Type(b), Return, Type(c), Return])
         == Recall([a, b, c], -1, "")
  {
    var s1, s2 := Recall([a], -1, ""), Recall([a, b], -1, "");
    Recorded(Initial, a);
    Recorded(s1, b);
    Recorded(s2, c);
    assert Initial.history + [a] == [a] && s1.history + [b] == [a, b] && s2.history + [c] == [a, b, c];
    RunAppend(s1, [Type(b), Return], [Type(c), Return]);
    RunAppend(Initial, [Type(a), Return], [Type(b), Return, Type(c), Return]);
    assert [Type(b), Return] + [Type(c), Return] == [Type(b), Return, Type(c), Return];
    assert [Type(a), Return] + [Type(b), Return, Type(c), Return]
        == [Type(a), Return, Type(b), Return, Type(c), Return];
  }

  /** Typing a non-blank command and pressing Return records it as typed. */
  lemma Recorded(s: Recall, c: string)
    requires !Text.AllSpace(c)
    ensures Run(s, [Type(c), Return]) == Recall(s.history + [c], -1, "")
  {
    assert [Type(c), Return][1..] == [Return];
    assert [Return][1..] == [];
  }

  /** Running two key sequences one after the other is running their
      concatenation. */
  lemma {:induction false} RunAppend(s: Recall, a: seq<Key>, b: seq<Key>)
    ensures Run(s, a + b) == Run(Run(s, a), b)
    decreases |a|
  {
    if |a| == 0 {
      assert a + b == b;
    } else {
      assert (a + b)[0] == a[0];
      assert (a + b)[1..] == a[1..] + b;
      RunAppend(Step(s, a[0]), a[1..], b);
    }
  }

  /** Walking a three-command history x, y, z: Up shows z, y, x and then
      stays on x; Down then shows y, z and finally clears the entry box and
      stops browsing. */
  lemma WalkThree(x: string, y: string, z: string)
    ensures var s := Recall([x, y, z], -1, "");
            && Ups(s, 1).entry == z && Ups(s, 2).entry == y
            && Ups(s, 3).entry == x && Ups(s, 4) == Ups(s, 3)
            && Downs(Ups(s, 4), 1).entry == y && Downs(Ups(s, 4), 2).entry == z
            && Downs(Ups(s, 4), 3) == s
  {
    var s := Recall([x, y, z], -1, "");
    UpsClamp(s, 1);
    UpsClamp(s, 2);
    UpsClamp(s, 3);
    UpsClamp(s, 4);
    assert Ups(s, 4) == Recall([x, y, z], 0, x);
    DownsRelease(Ups(s, 4), 1);
    DownsRelease(Ups(s, 4), 2);
    DownsRelease(Ups(s, 4), 3);
  }
}
