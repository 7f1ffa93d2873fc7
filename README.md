# Dance pad driver: frame decoding and edge detection

A model of the part of `DancePadDriver` that turns the text lines a USB dance pad
sends over its serial port into keyboard events. The driver keeps one integer
state per button for six buttons: Up, Down, Left, Right, Escape and Enter. For
every line it receives, it does the following:

- It splits the line on the null and carriage-return characters and drops empty
  fragments.
- If there are exactly six tokens, it parses each token with `Int32.TryParse`.
  A 0 that differs from the stored state sends a key-up and stores 0. A 1 that
  differs sends a key-down and stores 1. Any other value is only logged.
  Then, if a callback is registered, it hands the callback a copy of the six
  states.
- A line with any other number of tokens is only logged.

The model has four modules, one per concern:

- `Tokens` (`tokens.dfy`): the split rule, as functions on strings. `Join` builds
  the line the pad sends for some tokens, and the round trip is proved.
- `Int32Parse` (`int32parse.dfy`): .NET's `Int32.TryParse` with its default
  number style, as a character-by-character scanner. The scanner allows white
  space before and after the number, an optional leading sign, and decimal
  digits whose value fits in 32 bits. A failed parse returns false and sets
  its out value to 0.
- `PadFrame` (`padframe.dfy`): `ProcessLine` gives what one line does to the
  six states, as a function. `Edges` is an independent description of the key
  events as the difference between the states before and after a line.
- `PadDriver` (`driver.dfy`): the class `DancePadDriver`. It holds the states
  in an `array<int>` that `ReceiveLine` updates in place, button by button.
  Two ghost sequences log the external effects: `sent` holds every key event handed
  to the keyboard emulator, and `published` holds every snapshot handed to the
  callback. `ReceiveLine` is proved against `ProcessLine`. `GetStatesCopy`
  copies the array element by element into a fresh array.

Points where the code's behaviour is easy to misread, and which the model
follows as written:

- The comments `// Down` and `// Up` on lines 94 and 98 say the opposite of the
  calls beside them. The model follows the calls: a 0 sends a key-up and a 1
  sends a key-down.
- Validation is per token. A bad token at one index does not stop the other
  indices of the same line from being applied.
- `TryParse` sets its out value to 0 when it fails. The initial `-1` of `state`
  is therefore always overwritten. A token that is not a number acts as "0": it
  releases the button and also logs "Invalid state".
- The states start at all 0. The first line in which a button is at 1
  therefore sends a key-down for that button (`PadFrame.ThreeFrames`).
- `Stop` never resets `_port`, so after it `GetPortName` still returns the name
  of the closed port. `Stop` is not part of this model.

## Model

| member | source | states |
|---|---|---|
| Tokens.Split | DDRUsbPadDriver/DancePadDriver.cs:87 | every token of a line is non-empty and contains neither '\0' nor '\r' |
| Tokens.SplitSeparated | DDRUsbPadDriver/DancePadDriver.cs:87 | a separator cuts a line into two parts whose tokens are split independently and concatenated |
| Tokens.SplitWord | DDRUsbPadDriver/DancePadDriver.cs:87 | a line with no separator is a single token, or no token when it is empty (the empty fragment is dropped) |
| Tokens.SplitJoin | DDRUsbPadDriver/DancePadDriver.cs:87 | splitting the line made of non-empty, separator-free tokens, each followed by '\r', gives back exactly those tokens in order |
| Int32Parse.TryParseInt32 | DDRUsbPadDriver/DancePadDriver.cs:92-93 | a failed parse leaves the out value 0; a successful parse yields a value within the 32-bit signed range |
| Int32Parse.DecimalRoundTrip | DDRUsbPadDriver/DancePadDriver.cs:93 | every 32-bit integer is parsed back, successfully, from its decimal text |
| Int32Parse.NonNumericFails | DDRUsbPadDriver/DancePadDriver.cs:93 | a token holding a character that is not white space, a digit or a sign fails to parse and has out value 0 |
| Int32Parse.WhiteSpaceIgnored | DDRUsbPadDriver/DancePadDriver.cs:93 | white space before and after a token does not change what it parses to |
| PadFrame.ButtonOf | DDRUsbPadDriver/DancePadDriver.cs:20-27 | every key code has a button index below six that the code table maps back to it |
| PadFrame.ProcessLine | DDRUsbPadDriver/DancePadDriver.cs:86-115 | a line is rejected exactly when it does not split into six tokens, reporting the token count; an accepted line yields six states |
| PadFrame.EmptyLineRejected | DDRUsbPadDriver/DancePadDriver.cs:73-88 | the empty line left by a failed read is rejected with zero tokens |
| PadFrame.EventsAreEdges | DDRUsbPadDriver/DancePadDriver.cs:90-108 | the key events of a line are exactly the edges between the states before and after it, in button order |
| PadFrame.EdgesAt | DDRUsbPadDriver/DancePadDriver.cs:94-101 | a button has an edge of a direction if and only if its state changed and the direction is key-up for a new 0, key-down otherwise |
| PadFrame.EdgesAscending | DDRUsbPadDriver/DancePadDriver.cs:90 | edges name only the buttons considered, in strictly ascending index order |
| PadFrame.ProcessLineAt | DDRUsbPadDriver/DancePadDriver.cs:94-104 | for each button: a token worth 0 (or 1) that differs stores it and sends a key-up (key-down) and not the other; a token equal to the state, or worth neither 0 nor 1, leaves the state and sends nothing |
| PadFrame.ProcessLineOrdered | DDRUsbPadDriver/DancePadDriver.cs:90-101 | the events of a line are in strictly ascending button order, so at most one per button |
| PadFrame.NonNumericTokenActsAsZero | DDRUsbPadDriver/DancePadDriver.cs:92-97 | a token with a non-numeric character sets its button to 0 and sends a key-up exactly when the button was not at 0 |
| PadFrame.ProcessLineKeepsStates | DDRUsbPadDriver/DancePadDriver.cs:94-104 | states that are all 0 or 1 stay all 0 or 1 after any line |
| PadFrame.ProcessLineTwice | DDRUsbPadDriver/DancePadDriver.cs:94-104 | the same line handled twice in a row changes nothing and sends no event the second time |
| PadFrame.FrameTokens | DDRUsbPadDriver/DancePadDriver.cs:87-93 | the line of six 32-bit values in decimal splits into six tokens that parse to those values |
| PadFrame.SampleLineTokens | DDRUsbPadDriver/DancePadDriver.cs:87 | "0\r1\r1\r1\r1\r1\r" splits into "0", "1", "1", "1", "1", "1" |
| PadFrame.BinaryFrameApplied | DDRUsbPadDriver/DancePadDriver.cs:86-108 | a line of six 0/1 values stores exactly those values and sends the edges from the old states to them |
| PadFrame.ThreeFrames | DDRUsbPadDriver/DancePadDriver.cs:86-108 | from all 0, the frames all-1, Up-at-0, all-1 send six key-downs in button order, then key-up Up, then key-down Up |
| PadFrame.SampleLineReleasesUp | DDRUsbPadDriver/DancePadDriver.cs:86-101 | the line "0\r1\r1\r1\r1\r1\r", received with every button at 1, stores 0 for Up and sends one key-up for Up |
| PadDriver.DancePadDriver.constructor | DDRUsbPadDriver/DancePadDriver.cs:17 | a new driver holds six states, all 0, with no port, no callback and nothing sent |
| PadDriver.DancePadDriver.Initialize | DDRUsbPadDriver/DancePadDriver.cs:35-39 | the callback is registered, or cleared when none is given |
| PadDriver.DancePadDriver.GetStates | DDRUsbPadDriver/DancePadDriver.cs:45-47 | the live state array itself is returned, not a copy |
| PadDriver.DancePadDriver.GetPortName | DDRUsbPadDriver/DancePadDriver.cs:61-65 | the empty string when there is no port, otherwise the port's name |
| PadDriver.DancePadDriver.GetStatesCopy | DDRUsbPadDriver/DancePadDriver.cs:122-127 | a fresh array equal element by element to the states |
| PadDriver.DancePadDriver.ReceiveLine | DDRUsbPadDriver/DancePadDriver.cs:72-116 | a rejected line changes no state, sends nothing and publishes nothing; an accepted one sets the states and appends the events ProcessLine gives, then publishes one snapshot equal to the new states when a callback is registered; states stay all 0 or 1 |
| PadDriver.DancePadDriver.ApplyFrame | DDRUsbPadDriver/DancePadDriver.cs:90-108 | the token loop leaves each state stepped by its own token's value and appends the frame's events in index order |
| PadDriver.DancePadDriver.ApplyState | DDRUsbPadDriver/DancePadDriver.cs:94-104 | one pass of the loop changes only button i, storing a differing 0 or 1 with its one key event, and nothing otherwise |

## Left out

- The single read from the serial port (lines 75-84), which closes the port and leaves the line empty when it fails: the line is a parameter of `ReceiveLine`, and a failed read is the empty line.
- `ChangePort`, `ClosePort`, `ClosePortOnBackgroundThread`, `Stop` and the unused mutex: these are serial I/O and a thread-based close workaround. Nothing in the model assigns `port`; it exists so that `GetPortName` can be stated.
- `GetPorts` and the port enumeration in `Initialize` (`SerialPort.GetPortNames`): these ask the operating system.
- `Console.WriteLine` logging, and the `valid` flag, which only decides whether to log (lines 93, 102-107).
- `KeyboardEmulator.SendKeyUp` and `SendKeyDown`: each call is an entry appended to `sent`.
- `Application.Current.Dispatcher.Invoke` and the callback's own code: each invocation is the snapshot appended to `published`, and the callback itself is reduced to whether one is registered.
- PadDriver.DancePadDriver.ReceiveLine: concurrent calls from the serial port's event thread are not modelled; calls are sequential.
- Int32Parse.TryParseInt32: culture-specific sign symbols are fixed to '+' and '-', and trailing null characters, which .NET also accepts, are not modelled because a token never contains one after the split.
- `DDRUsbPadDriver/MainWindow.xaml.cs`: the WPF window is not part of this model.
