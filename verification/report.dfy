/**
 The three message helpers of the command line tool (success, warning,
 error). Each lays out five slots (colour, symbol, message, newline, reset),
 drops the empty ones and joins the rest with single spaces. Colour and
 symbol appear only in the pretty output format; the symbol set depends on
 whether the terminal supports the Unicode symbols, which is an input here.
 */
module Report {

  const RESET := "\U{1B}[0m"
  const RED := "\U{1B}[31m"
  const GREEN := "\U{1B}[32m"
  const YELLOW := "\U{1B}[33m"

  datatype Level = Success | Warn | Error

  datatype Stream = Stdout | Stderr

  /** Success messages go to standard output, the others to standard error. */
  function StreamOf(level: Level): Stream {
    if level == Success then Stdout else Stderr
  }

  function Colour(level: Level): string {
    match level
    case Success => GREEN
    case Warn => YELLOW
    case Error => RED
  }

  /** The symbol of a level; a warning uses the information symbol. */
  function Symbol(level: Level, isSupported: bool): string {
    match level
    case Success => if isSupported then "\U{2714}" else "\U{221A}"
    case Warn => if isSupported then "\U{2139}" else "i"
    case Error => if isSupported then "\U{2716}" else "\U{D7}"
  }

  /** The five slots before empty ones are dropped. */
  function Slots(level: Level, message: string, pretty: bool, isSupported: bool): seq<string> {
    [ if pretty then Colour(level) else "",
      if pretty then Symbol(level, isSupported) else "",
      message,
      "\n",
      if pretty then RESET else "" ]
  }

  /** The parts that are truthy, that is non-empty, in their order. */
  function DropEmpty(parts: seq<string>): (r: seq<string>)
    ensures |r| <= |parts|
    ensures forall k :: 0 <= k < |r| ==> r[k] != ""
  {
    if parts == [] then []
    else if parts[0] == "" then DropEmpty(parts[1..])
    else [parts[0]] + DropEmpty(parts[1..])
  }

  function Keep(s: string): seq<string> {
    if s == "" then [] else [s]
  }

  lemma DropEmptyCons(x: string, rest: seq<string>)
    ensures DropEmpty([x] + rest) == Keep(x) + DropEmpty(rest)
  {
    assert ([x] + rest)[1..] == rest;
  }

  /** Filtering distributes over concatenation: the parts of `a` that
      survive come first, in their order, then those of `b`. */
  lemma {:induction false} DropEmptyAppend(a: seq<string>, b: seq<string>)
    ensures DropEmpty(a + b) == DropEmpty(a) + DropEmpty(b)
  {
    if a != [] {
      assert (a + b)[1..] == a[1..] + b;
      DropEmptyAppend(a[1..], b);
    } else {
      assert a + b == b;
    }
  }

  /** A list without empty parts passes through unchanged. */
  lemma {:induction false} DropEmptyKeepsAll(parts: seq<string>)
    requires forall k :: 0 <= k < |parts| ==> parts[k] != ""
    ensures DropEmpty(parts) == parts
  {
    if parts != [] {
      DropEmptyKeepsAll(parts[1..]);
      assert [parts[0]] + parts[1..] == parts;
    }
  }

  /** Every non-empty string occurs as often after filtering as before. */
  lemma {:induction false} DropEmptyCounts(parts: seq<string>)
    ensures forall x :: x != "" ==> multiset(DropEmpty(parts))[x] == multiset(parts)[x]
  {
    if parts != [] {
      DropEmptyCounts(parts[1..]);
      assert parts == [parts[0]] + parts[1..];
      assert multiset(parts) == multiset([parts[0]]) + multiset(parts[1..]);
    }
  }

  /** Which slots survive: colour and symbol only when pretty, the message
      only when non-empty, the newline always, the reset only when pretty. */
  lemma KeptSlots(level: Level, message: string, pretty: bool, isSupported: bool)
    ensures DropEmpty(Slots(level, message, pretty, isSupported))
         == (if pretty then [Colour(level), Symbol(level, isSupported)] else [])
            + Keep(message) + ["\n"] + (if pretty then [RESET] else [])
  {
    if pretty {
      KeptPretty(level, message, isSupported);
    } else {
      KeptPlain(level, message, isSupported);
    }
  }

  lemma KeptPretty(level: Level, message: string, isSupported: bool)
    ensures DropEmpty(Slots(level, message, true, isSupported))
         == [Colour(level), Symbol(level, isSupported)] + Keep(message) + ["\n", RESET]
  {
    var c, y := Colour(level), Symbol(level, isSupported);
    assert Slots(level, message, true, isSupported) == [c] + ([y] + ([message] + (["\n"] + [RESET])));
    DropEmptyCons(RESET, []);
    assert [RESET] + [] == [RESET];
    DropEmptyCons("\n", [RESET]);
    DropEmptyCons(message, ["\n"] + [RESET]);
    DropEmptyCons(y, [message] + (["\n"] + [RESET]));
    DropEmptyCons(c, [y] + ([message] + (["\n"] + [RESET])));
  }

  lemma KeptPlain(level: Level, message: string, isSupported: bool)
    ensures DropEmpty(Slots(level, message, false, isSupported)) == Keep(message) + ["\n"]
  {
    assert Slots(level, message, false, isSupported) == [""] + ([""] + ([message] + (["\n"] + [""])));
    DropEmptyCons("", []);
    assert [""] + [] == [""];
    DropEmptyCons("\n", [""]);
    DropEmptyCons(message, ["\n"] + [""]);
    DropEmptyCons("", [message] + (["\n"] + [""]));
    DropEmptyCons("", [""] + ([message] + (["\n"] + [""])));
  }

  /** `Array.prototype.join`: the parts with `sep` between neighbours. */
  function Join(parts: seq<string>, sep: string): string {
    if parts == [] then ""
    else if |parts| == 1 then parts[0]
    else parts[0] + sep + Join(parts[1..], sep)
  }

  lemma JoinCons(x: string, rest: seq<string>, sep: string)
    requires rest != []
    ensures Join([x] + rest, sep) == x + sep + Join(rest, sep)
  {
    assert ([x] + rest)[1..] == rest;
  }

  /** The line a helper prints for `message`. */
  function Format(level: Level, message: string, pretty: bool, isSupported: bool): string {
    Join(DropEmpty(Slots(level, message, pretty, isSupported)), " ")
  }

  /** Plain format with a message: the message, a space and a newline. */
  lemma FormatPlain(level: Level, message: string, isSupported: bool)
    requires message != ""
    ensures Format(level, message, false, isSupported) == message + " \n"
  {
    KeptSlots(level, message, false, isSupported);
    var parts := DropEmpty(Slots(level, message, false, isSupported));
    assert parts == [message] + ["\n"];
    JoinCons(message, ["\n"], " ");
  }

  /** Plain format with an empty message: only the newline is left. */
  lemma FormatPlainEmpty(level: Level, isSupported: bool)
    ensures Format(level, "", false, isSupported) == "\n"
  {
    KeptSlots(level, "", false, isSupported);
    var parts := DropEmpty(Slots(level, "", false, isSupported));
    assert parts == ["\n"];
  }

  /** Pretty format: colour, symbol, message, newline and reset, each
      separated by one space. */
  lemma FormatPretty(level: Level, message: string, isSupported: bool)
    requires message != ""
    ensures Format(level, message, true, isSupported)
         == Colour(level) + " " + Symbol(level, isSupported) + " " + message + " " + "\n" + " " + RESET
  {
    KeptSlots(level, message, true, isSupported);
    var parts := DropEmpty(Slots(level, message, true, isSupported));
    var c, y := Colour(level), Symbol(level, isSupported);
    assert parts == [c] + ([y] + ([message] + (["\n"] + [RESET])));
    JoinCons("\n", [RESET], " ");
    JoinCons(message, ["\n"] + [RESET], " ");
    JoinCons(y, [message] + (["\n"] + [RESET]), " ");
    JoinCons(c, [y] + ([message] + (["\n"] + [RESET])), " ");
  }

  /** Pretty format with an empty message: the message slot vanishes and
      leaves no extra space behind. */
  lemma FormatPrettyEmpty(level: Level, isSupported: bool)
    ensures Format(level, "", true, isSupported)
         == Colour(level) + " " + Symbol(level, isSupported) + " " + "\n" + " " + RESET
  {
    KeptSlots(level, "", true, isSupported);
    var parts := DropEmpty(Slots(level, "", true, isSupported));
    var c, y := Colour(level), Symbol(level, isSupported);
    assert parts == [c] + ([y] + (["\n"] + [RESET]));
    JoinCons("\n", [RESET], " ");
    JoinCons(y, ["\n"] + [RESET], " ");
    JoinCons(c, [y] + (["\n"] + [RESET]), " ");
  }

  /* ---------------------------------------------------------------------
     Spacing: dropping empty parts leaves no doubled spaces.
     --------------------------------------------------------------------- */

  predicate NoDoubleSpace(s: string) {
    forall i :: 0 <= i < |s| - 1 ==> !(s[i] == ' ' && s[i + 1] == ' ')
  }

  /** A part that can sit next to a separating space without doubling it. */
  predicate Tidy(s: string) {
    s != "" && s[0] != ' ' && s[|s| - 1] != ' ' && NoDoubleSpace(s)
  }

  lemma ConcatNoDoubleSpace(a: string, b: string)
    requires NoDoubleSpace(a) && NoDoubleSpace(b)
    requires a == "" || b == "" || a[|a| - 1] != ' ' || b[0] != ' '
    ensures NoDoubleSpace(a + b)
  {
    var s := a + b;
    forall i | 0 <= i < |s| - 1
      ensures !(s[i] == ' ' && s[i + 1] == ' ')
    {
      if i + 1 < |a| {
        assert s[i] == a[i] && s[i + 1] == a[i + 1];
      } else if i >= |a| {
        assert s[i] == b[i - |a|] && s[i + 1] == b[i + 1 - |a|];
      }
    }
  }

  /** Joining tidy parts with one space never produces two spaces in a row,
      and the result neither starts nor ends with a space. */
  lemma {:induction false} JoinTidy(parts: seq<string>)
    requires parts != []
    requires forall k :: 0 <= k < |parts| ==> Tidy(parts[k])
    ensures Tidy(Join(parts, " "))
  {
    if |parts| > 1 {
      JoinTidy(parts[1..]);
      var tail := Join(parts[1..], " ");
      ConcatNoDoubleSpace(parts[0], " ");
      ConcatNoDoubleSpace(parts[0] + " ", tail);
      var s := parts[0] + " " + tail;
      assert s[0] == parts[0][0];
      assert s[|s| - 1] == tail[|tail| - 1];
    }
  }

  lemma EscapesAreTidy(level: Level, isSupported: bool)
    ensures Tidy(Colour(level)) && Tidy(Symbol(level, isSupported)) && Tidy("\n") && Tidy(RESET)
  {
  }

  /** When the message itself is tidy, or empty, the printed line has no
      doubled space in either format. */
  lemma FormatNoDoubleSpace(level: Level, message: string, pretty: bool, isSupported: bool)
    requires message == "" || Tidy(message)
    ensures NoDoubleSpace(Format(level, message, pretty, isSupported))
  {
    KeptSlots(level, message, pretty, isSupported);
    var parts := DropEmpty(Slots(level, message, pretty, isSupported));
    EscapesAreTidy(level, isSupported);
    assert "\n" in parts;
    JoinTidy(parts);
  }
}
