/** What one received line does to the six button states, as a function.

    The driver keeps one integer per button.  For a line that splits into
    exactly six tokens it walks the tokens in index order: a token whose parsed
    value is 0 and differs from the stored state sends a key-up for that
    button and stores 0; one whose value is 1 and differs sends a key-down and
    stores 1; any other value changes nothing.  Every token is treated on its
    own, so a bad token does not stop the others from being applied, and a
    token that does not parse at all has the value 0.  A line with any other
    number of tokens changes nothing.

    ProcessLine is that behaviour; Edges is an independent description of the
    key events as the difference between the states before and after, and
    EventsAreEdges proves the two agree.
 */
module PadFrame {
  import opened Tokens
  import opened Int32Parse

  /** The pad has six buttons, and a frame six tokens. */
  const ButtonCount: nat := 6

  datatype KeyCode = Up | Down | Left | Right | Escape | Enter

  /** The key each button index is mapped to. */
  const KeyCodes: seq<KeyCode> := [Up, Down, Left, Right, Escape, Enter]

  /** The button index a key code belongs to: the inverse of KeyCodes. */
  function ButtonOf(code: KeyCode): (i: nat)
    ensures i < ButtonCount && KeyCodes[i] == code
  {
    match code
    case Up => 0
    case Down => 1
    case Left => 2
    case Right => 3
    case Escape => 4
    case Enter => 5
  }

  datatype Direction = KeyUp | KeyDown

  /** One call of the keyboard emulator. */
  datatype KeyEvent = KeyEvent(direction: Direction, code: KeyCode)

  /** The states the driver keeps between lines: six entries, each 0 or 1. */
  predicate IsStateVector(states: seq<int>) {
    |states| == ButtonCount && forall i :: 0 <= i < |states| ==> states[i] == 0 || states[i] == 1
  }

  /** The number a token stands for: the out value of TryParse, 0 when parsing failed. */
  function Decode(token: string): int {
    TryParseInt32(token).value
  }

  /** The numbers the tokens of a frame stand for, in order. */
  function Decodes(tokens: seq<string>): (values: seq<int>)
    ensures |values| == |tokens|
    ensures forall i {:trigger Decode(tokens[i])} :: 0 <= i < |tokens| ==> values[i] == Decode(tokens[i])
  {
    seq(|tokens|, i requires 0 <= i < |tokens| => Decode(tokens[i]))
  }

  /** The state stored for one button after a token worth `value` is seen. */
  function Step(current: int, value: int): (next: int)
    ensures next == if value == 0 || value == 1 then value else current
  {
    if value == 0 && value != current then 0
    else if value == 1 && value != current then 1
    else current
  }

  /** The key event sent for button `i` when a token worth `value` is seen, if any. */
  function StepEvents(i: nat, current: int, value: int): seq<KeyEvent>
    requires i < ButtonCount
  {
    if value == 0 && value != current then [KeyEvent(KeyUp, KeyCodes[i])]
    else if value == 1 && value != current then [KeyEvent(KeyDown, KeyCodes[i])]
    else []
  }

  /** The states after a frame: every index is stepped with its own value. */
  function ApplyValues(states: seq<int>, values: seq<int>): (next: seq<int>)
    requires |states| == |values|
    ensures |next| == |states|
    ensures forall i :: 0 <= i < |next| ==> next[i] == Step(states[i], values[i])
  {
    seq(|states|, i requires 0 <= i < |states| => Step(states[i], values[i]))
  }

  /** The key events sent for the first `n` values of a frame, in index order. */
  function FrameEvents(states: seq<int>, values: seq<int>, n: nat): seq<KeyEvent>
    requires |states| == |values| == ButtonCount && n <= ButtonCount
  {
    if n == 0 then []
    else FrameEvents(states, values, n - 1) + StepEvents(n - 1, states[n - 1], values[n - 1])
  }

  /** A state vector that holds, at every index, the step of `before` by the
      value at that index is the one ApplyValues computes. */
  lemma StepsApplied(before: seq<int>, values: seq<int>, after: seq<int>)
    requires |before| == |values| == |after| == ButtonCount
    requires forall k :: 0 <= k < ButtonCount ==> after[k] == Step(before[k], values[k])
    ensures after == ApplyValues(before, values)
  {
  }

  /** Events logged after the first `i` values, followed by those of value
      `i`, are the events of the first `i + 1` values. */
  lemma FrameEventsStep(log: seq<KeyEvent>, sent: seq<KeyEvent>, before: seq<int>, values: seq<int>, i: nat)
    requires |before| == |values| == ButtonCount && i < ButtonCount
    requires sent == log + FrameEvents(before, values, i)
    ensures sent + StepEvents(i, before[i], values[i]) == log + FrameEvents(before, values, i + 1)
  {
  }

  /** The edge of button `i`: none if its state did not change, otherwise
      key-up when it changed to 0 and key-down when it changed to anything else. */
  function EdgeAt(before: seq<int>, after: seq<int>, i: nat): seq<KeyEvent>
    requires |before| == |after| == ButtonCount && i < ButtonCount
  {
    if before[i] == after[i] then []
    else [KeyEvent(if after[i] == 0 then KeyUp else KeyDown, KeyCodes[i])]
  }

  /** Reference: the edges of the first `n` buttons, in index order. */
  function Edges(before: seq<int>, after: seq<int>, n: nat): seq<KeyEvent>
    requires |before| == |after| == ButtonCount && n <= ButtonCount
  {
    if n == 0 then [] else Edges(before, after, n - 1) + EdgeAt(before, after, n - 1)
  }

  /** The result of handling one received line. */
  datatype LineOutcome =
    | WrongTokenCount(count: nat)
    | Applied(states: seq<int>, events: seq<KeyEvent>)

  /** Handling of one received line, given the states before it. */
  function ProcessLine(states: seq<int>, line: string): (r: LineOutcome)
    requires |states| == ButtonCount
    ensures r.WrongTokenCount? <==> |Split(line)| != ButtonCount
    ensures r.WrongTokenCount? ==> r.count == |Split(line)|
    ensures r.Applied? ==> |r.states| == ButtonCount
  {
    var tokens := Split(line);
    if |tokens| == ButtonCount then
      var values := Decodes(tokens);
      Applied(ApplyValues(states, values), FrameEvents(states, values, ButtonCount))
    else
      WrongTokenCount(|tokens|)
  }

  /** The events a frame sends are exactly the edges between the states
      before and after it. */
  lemma {:induction false} EventsAreEdges(states: seq<int>, values: seq<int>, n: nat)
    requires |states| == |values| == ButtonCount && n <= ButtonCount
    ensures FrameEvents(states, values, n) == Edges(states, ApplyValues(states, values), n)
  {
    if n > 0 {
      EventsAreEdges(states, values, n - 1);
    }
  }

  /** Edges come in strictly ascending button order, each from the first `n` buttons. */
  lemma {:induction false} EdgesAscending(before: seq<int>, after: seq<int>, n: nat)
    requires |before| == |after| == ButtonCount && n <= ButtonCount
    ensures forall j :: 0 <= j < |Edges(before, after, n)| ==> ButtonOf(Edges(before, after, n)[j].code) < n
    ensures forall j, k :: 0 <= j < k < |Edges(before, after, n)| ==>
              ButtonOf(Edges(before, after, n)[j].code) < ButtonOf(Edges(before, after, n)[k].code)
  {
    if n > 0 {
      EdgesAscending(before, after, n - 1);
    }
  }

  /** Button `i` has an edge exactly when its state changed, and the edge's
      direction is key-up exactly when the new state is 0. */
  lemma {:induction false} EdgesAt(before: seq<int>, after: seq<int>, n: nat, i: nat, d: Direction)
    requires |before| == |after| == ButtonCount && i < n <= ButtonCount
    ensures KeyEvent(d, KeyCodes[i]) in Edges(before, after, n) <==>
              before[i] != after[i] && d == (if after[i] == 0 then KeyUp else KeyDown)
  {
    EdgesAscending(before, after, n - 1);
    if i < n - 1 {
      EdgesAt(before, after, n - 1, i, d);
      assert ButtonOf(KeyCodes[i]) == i && ButtonOf(KeyCodes[n - 1]) == n - 1;
    } else {
      assert ButtonOf(KeyCodes[i]) == i;
    }
  }

  /** Comparing a state vector with itself gives no edges. */
  lemma {:induction false} NoEdgesWithoutChange(states: seq<int>, n: nat)
    requires |states| == ButtonCount && n <= ButtonCount
    ensures Edges(states, states, n) == []
  {
    if n > 0 {
      NoEdgesWithoutChange(states, n - 1);
    }
  }

  /** A line that does not hold exactly six tokens, such as the empty line a
      failed read leaves, is rejected as a whole. */
  lemma EmptyLineRejected(states: seq<int>)
    requires |states| == ButtonCount
    ensures ProcessLine(states, "") == WrongTokenCount(0)
  {
  }

  /** Per button, for a six-token line: a token worth 0 or 1 that differs from
      the stored state stores it and sends one key event (key-up for 0,
      key-down for 1); any other token leaves the state alone and sends none. */
  lemma ProcessLineAt(states: seq<int>, line: string, i: nat)
    requires |states| == ButtonCount && |Split(line)| == ButtonCount && i < ButtonCount
    ensures var v := Decode(Split(line)[i]);
            var r := ProcessLine(states, line);
            && (v == 0 && states[i] != 0 ==>
                  r.states[i] == 0 && KeyEvent(KeyUp, KeyCodes[i]) in r.events &&
                  KeyEvent(KeyDown, KeyCodes[i]) !in r.events)
            && (v == 1 && states[i] != 1 ==>
                  r.states[i] == 1 && KeyEvent(KeyDown, KeyCodes[i]) in r.events &&
                  KeyEvent(KeyUp, KeyCodes[i]) !in r.events)
            && (v == states[i] || (v != 0 && v != 1) ==>
                  r.states[i] == states[i] &&
                  KeyEvent(KeyUp, KeyCodes[i]) !in r.events && KeyEvent(KeyDown, KeyCodes[i]) !in r.events)
  {
    var values := Decodes(Split(line));
    var next := ApplyValues(states, values);
    EventsAreEdges(states, values, ButtonCount);
    EdgesAt(states, next, ButtonCount, i, KeyUp);
    EdgesAt(states, next, ButtonCount, i, KeyDown);
  }

  /** The events of one line are in strictly ascending button order, so each
      button sends at most one event per line. */
  lemma ProcessLineOrdered(states: seq<int>, line: string)
    requires |states| == ButtonCount && |Split(line)| == ButtonCount
    ensures var events := ProcessLine(states, line).events;
            forall j, k :: 0 <= j < k < |events| ==> ButtonOf(events[j].code) < ButtonOf(events[k].code)
  {
    var values := Decodes(Split(line));
    EventsAreEdges(states, values, ButtonCount);
    EdgesAscending(states, ApplyValues(states, values), ButtonCount);
  }

  /** A token that holds a character no number can contain counts as 0: the
      button is released (key-up) if it was not already at 0. */
  lemma NonNumericTokenActsAsZero(states: seq<int>, line: string, i: nat, c: nat)
    requires |states| == ButtonCount && |Split(line)| == ButtonCount && i < ButtonCount
    requires c < |Split(line)[i]| && !IsNumeric(Split(line)[i][c])
    ensures var r := ProcessLine(states, line);
            r.states[i] == 0 &&
            (KeyEvent(KeyUp, KeyCodes[i]) in r.events <==> states[i] != 0)
  {
    NonNumericFails(Split(line)[i], c);
    ProcessLineAt(states, line, i);
  }

  /** Stored states only ever become 0 or 1. */
  lemma ProcessLineKeepsStates(states: seq<int>, line: string)
    requires IsStateVector(states)
    ensures ProcessLine(states, line).Applied? ==> IsStateVector(ProcessLine(states, line).states)
  {
  }

  /** Handling the same line twice in a row: the second time changes no
      state and sends no event. */
  lemma ProcessLineTwice(states: seq<int>, line: string)
    requires |states| == ButtonCount && |Split(line)| == ButtonCount
    ensures var next := ProcessLine(states, line).states;
            ProcessLine(next, line) == Applied(next, [])
  {
    var values := Decodes(Split(line));
    var next := ApplyValues(states, values);
    assert ApplyValues(next, values) == next;
    EventsAreEdges(next, values, ButtonCount);
    NoEdgesWithoutChange(next, ButtonCount);
  }

  /** The frame the pad sends for six states: each as a decimal token. */
  function Frame(values: seq<int>): string
    requires |values| == ButtonCount
  {
    Join(seq(ButtonCount, i requires 0 <= i < ButtonCount => Decimal(values[i])))
  }

  /** A frame of six 32-bit values splits into six tokens decoding to those values. */
  lemma FrameTokens(values: seq<int>)
    requires |values| == ButtonCount && forall i :: 0 <= i < ButtonCount ==> InInt32(values[i])
    ensures |Split(Frame(values))| == ButtonCount
    ensures forall i :: 0 <= i < ButtonCount ==> Decode(Split(Frame(values))[i]) == values[i]
  {
    var tokens := seq(ButtonCount, i requires 0 <= i < ButtonCount => Decimal(values[i]));
    forall k | 0 <= k < ButtonCount
      ensures WellFormed(tokens[k]) && Decode(tokens[k]) == values[k]
    {
      DecimalRoundTrip(values[k]);
      DecimalWellFormed(values[k]);
    }
    SplitJoin(tokens);
  }

  lemma DecimalWellFormed(n: int)
    ensures WellFormed(Decimal(n))
  {
    var m: nat := if n < 0 then -n else n;
    NatDigitsValue(m);
  }

  /** A frame whose six values are each 0 or 1 sets the states to exactly
      those values, and its events are the edges from the old states to them. */
  lemma BinaryFrameApplied(states: seq<int>, values: seq<int>)
    requires |states| == ButtonCount && IsStateVector(values)
    ensures ProcessLine(states, Frame(values)) == Applied(values, Edges(states, values, ButtonCount))
  {
    FrameTokens(values);
    var decoded := Decodes(Split(Frame(values)));
    assert decoded == values;
    assert ApplyValues(states, decoded) == values;
    EventsAreEdges(states, decoded, ButtonCount);
  }

  /** The line for the tokens "0", "1", "1", "1", "1", "1". */
  lemma SampleJoin()
    ensures Join(["0", "1", "1", "1", "1", "1"]) == "0\r1\r1\r1\r1\r1\r"
  {
    var tokens := ["0", "1", "1", "1", "1", "1"];
    assert Join(tokens[5..]) == "1\r";
    assert Join(tokens[4..]) == "1\r1\r";
    assert Join(tokens[3..]) == "1\r1\r1\r";
    assert Join(tokens[2..]) == "1\r1\r1\r1\r";
    assert Join(tokens[1..]) == "1\r1\r1\r1\r1\r";
  }

  /** The line "0\r1\r1\r1\r1\r1\r" splits into the six tokens "0", "1", "1", "1", "1", "1". */
  lemma SampleLineTokens()
    ensures Split("0\r1\r1\r1\r1\r1\r") == ["0", "1", "1", "1", "1", "1"]
  {
    SampleJoin();
    SplitJoin(["0", "1", "1", "1", "1", "1"]);
  }

  /** On the wire, the frame for "button 0 at 0, the others at 1". */
  lemma FrameText()
    ensures Frame([0, 1, 1, 1, 1, 1]) == "0\r1\r1\r1\r1\r1\r"
  {
    assert Decimal(0) == "0" && Decimal(1) == "1";
    var values := [0, 1, 1, 1, 1, 1];
    assert seq(ButtonCount, i requires 0 <= i < ButtonCount => Decimal(values[i])) == ["0", "1", "1", "1", "1", "1"];
    SampleJoin();
  }

  /** The edges between two state vectors, button by button. */
  lemma EdgesUnrolled(before: seq<int>, after: seq<int>)
    requires |before| == |after| == ButtonCount
    ensures Edges(before, after, ButtonCount) ==
              EdgeAt(before, after, 0) + EdgeAt(before, after, 1) + EdgeAt(before, after, 2) +
              EdgeAt(before, after, 3) + EdgeAt(before, after, 4) + EdgeAt(before, after, 5)
  {
    assert Edges(before, after, 1) == EdgeAt(before, after, 0);
    assert Edges(before, after, 2) == Edges(before, after, 1) + EdgeAt(before, after, 1);
    assert Edges(before, after, 3) == Edges(before, after, 2) + EdgeAt(before, after, 2);
    assert Edges(before, after, 4) == Edges(before, after, 3) + EdgeAt(before, after, 3);
    assert Edges(before, after, 5) == Edges(before, after, 4) + EdgeAt(before, after, 4);
  }

  /** The edges of the three frames of ThreeFrames. */
  lemma ThreeFramesEdges()
    ensures Edges([0, 0, 0, 0, 0, 0], [1, 1, 1, 1, 1, 1], ButtonCount) ==
              [KeyEvent(KeyDown, Up), KeyEvent(KeyDown, Down), KeyEvent(KeyDown, Left),
               KeyEvent(KeyDown, Right), KeyEvent(KeyDown, Escape), KeyEvent(KeyDown, Enter)]
    ensures Edges([1, 1, 1, 1, 1, 1], [0, 1, 1, 1, 1, 1], ButtonCount) == [KeyEvent(KeyUp, Up)]
    ensures Edges([0, 1, 1, 1, 1, 1], [1, 1, 1, 1, 1, 1], ButtonCount) == [KeyEvent(KeyDown, Up)]
  {
    EdgesUnrolled([0, 0, 0, 0, 0, 0], [1, 1, 1, 1, 1, 1]);
    EdgesUnrolled([1, 1, 1, 1, 1, 1], [0, 1, 1, 1, 1, 1]);
    EdgesUnrolled([0, 1, 1, 1, 1, 1], [1, 1, 1, 1, 1, 1]);
  }

  /** From the initial all-zero states the pad reports all buttons at 1, then
      button 0 at 0, then all at 1 again: every button gets a key-down in index
      order, then Up gets a key-up, then Up gets a key-down. */
  lemma ThreeFrames()
    ensures ProcessLine([0, 0, 0, 0, 0, 0], Frame([1, 1, 1, 1, 1, 1])) ==
              Applied([1, 1, 1, 1, 1, 1],
                      [KeyEvent(KeyDown, Up), KeyEvent(KeyDown, Down), KeyEvent(KeyDown, Left),
                       KeyEvent(KeyDown, Right), KeyEvent(KeyDown, Escape), KeyEvent(KeyDown, Enter)])
    ensures ProcessLine([1, 1, 1, 1, 1, 1], Frame([0, 1, 1, 1, 1, 1])) == Applied([0, 1, 1, 1, 1, 1], [KeyEvent(KeyUp, Up)])
    ensures ProcessLine([0, 1, 1, 1, 1, 1], Frame([1, 1, 1, 1, 1, 1])) == Applied([1, 1, 1, 1, 1, 1], [KeyEvent(KeyDown, Up)])
  {
    ThreeFramesEdges();
    BinaryFrameApplied([0, 0, 0, 0, 0, 0], [1, 1, 1, 1, 1, 1]);
    BinaryFrameApplied([1, 1, 1, 1, 1, 1], [0, 1, 1, 1, 1, 1]);
    BinaryFrameApplied([0, 1, 1, 1, 1, 1], [1, 1, 1, 1, 1, 1]);
  }

  /** The sample line "0\r1\r1\r1\r1\r1\r", received while every button is
      at 1, releases Up: it stores 0 for button 0 and sends one key-up. */
  lemma SampleLineReleasesUp()
    ensures ProcessLine([1, 1, 1, 1, 1, 1], "0\r1\r1\r1\r1\r1\r") == Applied([0, 1, 1, 1, 1, 1], [KeyEvent(KeyUp, Up)])
  {
    FrameText();
    ThreeFrames();
  }
}
