/** The dance pad driver: it keeps the six button states in an array, and for
    every line received from the serial port updates them in place, sends a
    key event per changed button and hands a copy of the states to the
    registered callback.

    The keyboard emulator and the callback are outside the model: every key
    event sent is appended to `sent`, and every snapshot handed to the
    callback to `published`.
 */
module PadDriver {
  import opened Tokens
  import opened Int32Parse
  import opened PadFrame

  datatype Option<T> = None | Some(value: T)

  class DancePadDriver {
    /** The state of each button, 0 or 1; the array is allocated once and updated in place. */
    var states: array<int>
    /** The name of the serial port in use, if one was ever selected. */
    var port: Option<string>
    /** Whether a state-change callback was registered. */
    var callbackRegistered: bool
    /** The calls made to the keyboard emulator, oldest first. */
    ghost var sent: seq<KeyEvent>
    /** The snapshots handed to the callback, oldest first. */
    ghost var published: seq<seq<int>>

    /** The driver's invariant: six states, each 0 or 1. */
    ghost predicate Valid()
      reads this, states
    {
      IsStateVector(states[..])
    }

    /** A new driver: every button at 0, no port, no callback, nothing sent. */
    constructor ()
      ensures Valid() && fresh(states)
      ensures states[..] == [0, 0, 0, 0, 0, 0]
      ensures port == None && !callbackRegistered && sent == [] && published == []
    {
      states := new int[ButtonCount] [0, 0, 0, 0, 0, 0];
      port := None;
      callbackRegistered := false;
      sent := [];
      published := [];
    }

    /** Registers the state-change callback, or none (a null handler). */
    method Initialize(withCallback: bool)
      modifies this`callbackRegistered
      ensures callbackRegistered == withCallback
    {
      callbackRegistered := withCallback;
    }

    /** The live state array itself, not a copy. */
    function GetStates(): (r: array<int>)
      reads this
      ensures r == states
    {
      states
    }

    /** The name of the port in use, or the empty string when there is none. */
    function GetPortName(): (name: string)
      reads this
      ensures port == None ==> name == ""
      ensures port != None ==> name == port.value
    {
      match port
      case None => ""
      case Some(p) => p
    }

    /** A new array holding the current states, element by element. */
    method GetStatesCopy() returns (copy: array<int>)
      ensures fresh(copy)
      ensures copy[..] == states[..]
    {
      copy := new int[states.Length];
      var i := 0;
      while i < states.Length
        invariant 0 <= i <= states.Length
        invariant forall k :: 0 <= k < i ==> copy[k] == states[k]
      {
        copy[i] := states[i];
        i := i + 1;
      }
    }

    /** Handles one line read from the port (the empty line when the read
        failed): a line of six tokens updates the states button by button,
        sends the key events and publishes a snapshot; any other line changes
        nothing. */
    method ReceiveLine(line: string)
      requires Valid()
      modifies states, this`sent, this`published
      ensures Valid()
      ensures ProcessLine(old(states[..]), line).WrongTokenCount? ==>
                states[..] == old(states[..]) && sent == old(sent) && published == old(published)
      ensures ProcessLine(old(states[..]), line).Applied? ==>
                && states[..] == ProcessLine(old(states[..]), line).states
                && sent == old(sent) + ProcessLine(old(states[..]), line).events
                && published == old(published) + (if callbackRegistered then [states[..]] else [])
    {
      var tokens := Split(line);
      if |tokens| == ButtonCount {
        ApplyFrame(tokens);
        if callbackRegistered {
          var snapshot := GetStatesCopy();
          published := published + [snapshot[..]];
        }
      }
    }

    /** The token loop of a six-token line: every button, in index order, is
        updated from its own token. */
    method ApplyFrame(tokens: seq<string>)
      requires Valid() && |tokens| == ButtonCount
      modifies states, this`sent
      ensures Valid()
      ensures states[..] == ApplyValues(old(states[..]), Decodes(tokens))
      ensures sent == old(sent) + FrameEvents(old(states[..]), Decodes(tokens), ButtonCount)
    {
      ghost var before := states[..];
      ghost var values := Decodes(tokens);
      var i := 0;
      while i < |tokens|
        invariant 0 <= i <= ButtonCount && Valid()
        invariant forall k :: 0 <= k < i ==> states[k] == Step(before[k], values[k])
        invariant forall k :: i <= k < ButtonCount ==> states[k] == before[k]
        invariant sent == old(sent) + FrameEvents(before, values, i)
      {
        var state := ParseToken(tokens[i]);
        ghost var sentBefore := sent;
        ApplyState(i, state);
        FrameEventsStep(old(sent), sentBefore, before, values, i);
        i := i + 1;
      }
      StepsApplied(before, values, states[..]);
    }

    /** Int32.TryParse on one token: its out value, which the loop uses
        whether or not the parse succeeded.  The loop calls this method rather
        than Decode directly so that, inside the loop, the verifier sees only
        this contract and not the parser's definition. */
    static method ParseToken(token: string) returns (state: int)
      ensures state == Decode(token)
    {
      var parsed := TryParseInt32(token);
      state := parsed.value;
    }

    /** One pass of the token loop, once the token of button `i` is parsed to
        `state`: if it is 0 or 1 and differs from the stored state, the
        matching key event is sent and the value stored.  Any other value is
        only logged. */
    method ApplyState(i: nat, state: int)
      requires Valid() && i < ButtonCount
      modifies states, this`sent
      ensures Valid()
      ensures states[i] == Step(old(states[i]), state)
      ensures forall k :: 0 <= k < states.Length && k != i ==> states[k] == old(states[k])
      ensures sent == old(sent) + StepEvents(i, old(states[i]), state)
    {
      if state == 0 && state != states[i] {
        sent := sent + [KeyEvent(KeyUp, KeyCodes[i])];
        states[i] := state;
      } else if state == 1 && state != states[i] {
        sent := sent + [KeyEvent(KeyDown, KeyCodes[i])];
        states[i] := state;
      }
    }
  }
}
