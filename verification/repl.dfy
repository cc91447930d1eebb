/**
 The page-cursor state and the command loop of main.go.

 `Config` holds the two pagination cursors; `map` follows the `Next` cursor and
 `mapb` the `Previous` one, and each replaces both cursors with those of the
 page the API sends back. The HTTP request and the JSON decoding are not
 modelled: a command receives `remote`, which says what the API answers for a
 URL (a transport failure, or a status code with a body that decoded to a
 page or failed to decode). The loop of `main` reads lines from a sequence
 instead of standard input; printing is not modelled, but what each line led
 to is returned as an `Outcome`.
 */
module Repl {
  import Input

  datatype Option<T> = None | Some(value: T)

  /** The URL of the first page of location areas, where `Init` points `Next`. */
  const FirstPage: string := "https://pokeapi.co/api/v2/location-area/?offset=0&limit=20"

  datatype Callback = ExitCallback | HelpCallback | MapCallback | MapbCallback

  datatype CliCommand = CliCommand(name: string, description: string, callback: Callback)

  /** The dispatch table `Init` installs in `availableCommands`. */
  const AvailableCommands: map<string, CliCommand> := map[
    "exit" := CliCommand("exit", "Exit the Pokedex", ExitCallback),
    "help" := CliCommand("help", "Displays a help message", HelpCallback),
    "map" := CliCommand("map", "displays map and move to next location", MapCallback),
    "mapb" := CliCommand("mapb", "displays previous location and move to it", MapbCallback)
  ]

  /** The cursors of a decoded `locationApiResponse`; a JSON null decodes to "". */
  datatype Page = Page(next: string, previous: string)

  datatype Body = Malformed | Decoded(page: Page)

  /** What `http.Get` produced: a transport error, or a response with its status code and decoded body. */
  datatype Response = TransportError | Response(statusCode: int, body: Body)

  /** The errors a command returns to the loop. */
  datatype Error = StatusError(code: int) | DecodeError

  datatype Cursors = Cursors(previous: string, next: string)

  /** The answer of the API is a 200 whose body decoded to `p`. */
  predicate IsPage(res: Response, p: Page)
  {
    res == Response(200, Decoded(p))
  }

  /**
   The common tail of `commandMap` and `commandMapb` once the request is
   answered: a transport error is swallowed, a status other than 200 and a body
   that does not decode are errors, and a decoded page replaces both cursors.
   */
  function Fetched(c: Cursors, res: Response): (r: (Cursors, Option<Error>))
    ensures r.1.Some? ==> r.0 == c
    ensures forall p :: IsPage(res, p) ==> r == (Cursors(p.previous, p.next), None)
    ensures res.Response? && res.statusCode != 200 ==> r.1 == Some(StatusError(res.statusCode))
    ensures res.TransportError? ==> r == (c, None)
    ensures res == Response(200, Malformed) ==> r == (c, Some(DecodeError))
    ensures r.1.None? <==> res.TransportError? || exists p :: IsPage(res, p)
    ensures r.0 == c || exists p :: IsPage(res, p) && r.0 == Cursors(p.previous, p.next)
  {
    match res
    case TransportError => (c, None)
    case Response(status, body) =>
      if status != 200 then (c, Some(StatusError(status)))
      else match body
        case Malformed => (c, Some(DecodeError))
        case Decoded(p) =>
          assert IsPage(res, p);
          (Cursors(p.previous, p.next), None)
  }

  class Config {
    var previous: string
    var next: string

    /** `Init`: no previous page, the next one is the first page. */
    constructor Init()
      ensures previous == "" && next == FirstPage
    {
      previous := "";
      next := FirstPage;
    }

    function State(): Cursors
      reads this
    {
      Cursors(previous, next)
    }
  }

  /** `commandMap`: request the `Next` cursor and move to the page it returns. */
  method CommandMap(config: Config, remote: string -> Response) returns (err: Option<Error>)
    modifies config
    ensures (config.State(), err) == Fetched(old(config.State()), remote(old(config.next)))
  {
    var res := remote(config.next);
    if res.TransportError? {
      return None;
    }
    if res.statusCode != 200 {
      return Some(StatusError(res.statusCode));
    }
    if res.body.Malformed? {
      return Some(DecodeError);
    }
    config.next := res.body.page.next;
    config.previous := res.body.page.previous;
    return None;
  }

  /** `commandMapb`: on the first page do nothing, else request `Previous` and move to that page. */
  method CommandMapb(config: Config, remote: string -> Response) returns (err: Option<Error>)
    modifies config
    ensures old(config.previous) == "" ==> config.State() == old(config.State()) && err == None
    ensures old(config.previous) != "" ==>
      (config.State(), err) == Fetched(old(config.State()), remote(old(config.previous)))
  {
    if config.previous == "" {
      return None;
    }
    var res := remote(config.previous);
    if res.TransportError? {
      return None;
    }
    if res.statusCode != 200 {
      return Some(StatusError(res.statusCode));
    }
    if res.body.Malformed? {
      return Some(DecodeError);
    }
    config.next := res.body.page.next;
    config.previous := res.body.page.previous;
    return None;
  }

  // ---------------------------------------------------------------------------
  // The read-dispatch loop of `main`.
  // ---------------------------------------------------------------------------

  /** One input line, with what the API answers while its command runs. */
  datatype Line = Line(text: string, remote: string -> Response)

  /** What a line led to: skipped as blank, an unknown command, a command error, success, or exit. */
  datatype Outcome = Blank | Unknown(command: string) | Failed(err: Error) | Done | Exited

  /** The outcome of a command that returned `e`. */
  function Reported(e: Option<Error>): Outcome
  {
    if e.Some? then Failed(e.value) else Done
  }

  /** The command a line names: its first token. */
  function CommandOf(text: string): Option<string>
  {
    var tokens := Input.CleanInput(text);
    if tokens == [] then None else Some(tokens[0])
  }

  /** One turn of the loop in `main`. */
  function Dispatch(c: Cursors, line: Line): (Cursors, Outcome)
  {
    match CommandOf(line.text)
    case None => (c, Blank)
    case Some(command) =>
      if command !in AvailableCommands then (c, Unknown(command))
      else match AvailableCommands[command].callback
        case ExitCallback => (c, Exited)
        case HelpCallback => (c, Done)
        case MapCallback =>
          var (c', e) := Fetched(c, line.remote(c.next));
          (c', Reported(e))
        case MapbCallback =>
          if c.previous == "" then (c, Done)
          else
            var (c', e) := Fetched(c, line.remote(c.previous));
            (c', Reported(e))
  }

  /**
   The loop of `main` over `lines`: the final cursors and one outcome per line
   processed. Every line is processed up to the first `exit`, which ends the
   session.
   */
  function Session(c: Cursors, lines: seq<Line>): (Cursors, seq<Outcome>)
    decreases |lines|
  {
    if lines == [] then (c, [])
    else
      var (c', o) := Dispatch(c, lines[0]);
      if o == Exited then (c', [o])
      else
        var (c'', os) := Session(c', lines[1..]);
        (c'', [o] + os)
  }

  /** One turn of `main`'s loop: clean the line, look its first word up and run the command. */
  method Execute(config: Config, line: Line) returns (outcome: Outcome)
    modifies config
    ensures (config.State(), outcome) == Dispatch(old(config.State()), line)
  {
    var cleanedInput := Input.CleanInput(line.text);
    if |cleanedInput| == 0 {
      return Blank;
    }
    var command := cleanedInput[0];
    if command !in AvailableCommands {
      return Unknown(command);
    }
    var commandObj := AvailableCommands[command];
    match commandObj.callback {
      case ExitCallback =>
        outcome := Exited;
      case HelpCallback =>
        outcome := Done;
      case MapCallback =>
        var err := CommandMap(config, line.remote);
        outcome := Reported(err);
      case MapbCallback =>
        var err := CommandMapb(config, line.remote);
        outcome := Reported(err);
    }
  }

  /** One more line of the loop: how `Session` of the whole input splits after line `i`. */
  lemma SessionAdvance(c0: Cursors, lines: seq<Line>, i: nat, done: seq<Outcome>,
                       c: Cursors, c': Cursors, o: Outcome)
    requires i < |lines|
    requires Session(c0, lines).0 == Session(c, lines[i..]).0
    requires Session(c0, lines).1 == done + Session(c, lines[i..]).1
    requires Dispatch(c, lines[i]) == (c', o)
    ensures o == Exited ==> Session(c0, lines) == (c', done + [o])
    ensures o != Exited ==>
      Session(c0, lines).0 == Session(c', lines[i + 1..]).0 &&
      Session(c0, lines).1 == (done + [o]) + Session(c', lines[i + 1..]).1
  {
    assert lines[i..][0] == lines[i] && lines[i..][1..] == lines[i + 1..];
    if o != Exited {
      var rest := Session(c', lines[i + 1..]);
      assert Session(c, lines[i..]) == (rest.0, [o] + rest.1);
      assert done + ([o] + rest.1) == (done + [o]) + rest.1;
    }
  }

  /** `main`'s loop, reading `lines` in order until they run out or `exit` is entered. */
  method Run(config: Config, lines: seq<Line>) returns (outcomes: seq<Outcome>)
    modifies config
    ensures (config.State(), outcomes) == Session(old(config.State()), lines)
  {
    ghost var c0 := config.State();
    outcomes := [];
    var i := 0;
    assert lines[0..] == lines;
    assert outcomes + Session(c0, lines).1 == Session(c0, lines).1;
    while i < |lines|
      invariant 0 <= i <= |lines|
      invariant Session(c0, lines).0 == Session(config.State(), lines[i..]).0
      invariant Session(c0, lines).1 == outcomes + Session(config.State(), lines[i..]).1
    {
      ghost var c := config.State();
      var outcome := Execute(config, lines[i]);
      SessionAdvance(c0, lines, i, outcomes, c, config.State(), outcome);
      outcomes := outcomes + [outcome];
      if outcome == Exited {
        return;
      }
      i := i + 1;
    }
    assert lines[i..] == [] && outcomes + [] == outcomes;
  }

  // ---------------------------------------------------------------------------
  // Properties of the loop.
  // ---------------------------------------------------------------------------

  /** Every entry of the dispatch table is filed under its own name. */
  lemma CommandTableNames()
    ensures AvailableCommands.Keys == {"exit", "help", "map", "mapb"}
    ensures forall k :: k in AvailableCommands ==> AvailableCommands[k].name == k
  {
  }

  /** The line's command is `map` or `mapb`, the only ones that touch the cursors. */
  predicate Pages(line: Line)
  {
    var command := CommandOf(line.text);
    command == Some("map") || command == Some("mapb")
  }

  /**
   The loop reports at most one outcome per line; only the last can be
   `Exited`, and it stops short of the input only after an `Exited`.
   */
  lemma {:induction false} SessionOutcomes(c: Cursors, lines: seq<Line>)
    ensures var os := Session(c, lines).1;
      && |os| <= |lines|
      && (forall i :: 0 <= i < |os| - 1 ==> os[i] != Exited)
      && (|os| == |lines| || (os != [] && os[|os| - 1] == Exited))
    decreases |lines|
  {
    if lines != [] {
      var d := Dispatch(c, lines[0]);
      if d.1 != Exited {
        SessionOutcomes(d.0, lines[1..]);
        var os := Session(d.0, lines[1..]).1;
        var all := [d.1] + os;
        assert Session(c, lines).1 == all;
        assert forall i :: 0 < i < |all| ==> all[i] == os[i - 1];
      }
    }
  }

  /** A session whose lines never run `map` or `mapb` leaves the cursors where they were. */
  lemma {:induction false} CursorsStayWithoutPaging(c: Cursors, lines: seq<Line>)
    requires forall i :: 0 <= i < |lines| ==> !Pages(lines[i])
    ensures Session(c, lines).0 == c
    decreases |lines|
  {
    if lines != [] {
      assert !Pages(lines[0]);
      assert Dispatch(c, lines[0]).0 == c;
      forall i | 0 <= i < |lines[1..]| ensures !Pages(lines[1..][i]) {
        assert lines[1..][i] == lines[i + 1];
      }
      CursorsStayWithoutPaging(c, lines[1..]);
    }
  }

  /** Nothing after an `exit` line is read: the session ends there. */
  lemma {:induction false} ExitEndsSession(c: Cursors, before: seq<Line>, line: Line, after: seq<Line>)
    requires CommandOf(line.text) == Some("exit")
    ensures Session(c, before + [line] + after) == Session(c, before + [line])
    decreases |before|
  {
    var all := before + [line] + after;
    var upTo := before + [line];
    if before == [] {
      assert all[0] == line && upTo[0] == line;
    } else {
      assert all[0] == before[0] && upTo[0] == before[0];
      assert all[1..] == before[1..] + [line] + after;
      assert upTo[1..] == before[1..] + [line];
      ExitEndsSession(Dispatch(c, before[0]).0, before[1..], line, after);
    }
  }

  /** A line of white space only is skipped: no command runs and the cursors stay. */
  lemma BlankLineSkipped(c: Cursors, line: Line)
    requires forall i :: 0 <= i < |line.text| ==> Input.IsSpace(line.text[i])
    ensures Dispatch(c, line) == (c, Blank)
  {
    Input.CleanInputEmpty(line.text);
  }

  /** `mapb` on the first page moves nowhere and reports no error. */
  lemma MapbOnFirstPage(next: string, line: Line)
    requires CommandOf(line.text) == Some("mapb")
    ensures Dispatch(Cursors("", next), line) == (Cursors("", next), Done)
  {
  }

  /** Right after `Init`, a successful `map` requests the first page and moves to the page it returns. */
  lemma MapFromStart(line: Line, p: Page)
    requires CommandOf(line.text) == Some("map")
    requires IsPage(line.remote(FirstPage), p)
    ensures Session(Cursors("", FirstPage), [line]) == (Cursors(p.previous, p.next), [Done])
  {
    var c := Cursors("", FirstPage);
    assert Fetched(c, line.remote(FirstPage)) == (Cursors(p.previous, p.next), None);
    assert Dispatch(c, line) == (Cursors(p.previous, p.next), Done);
    assert [line][1..] == [];
    assert [Done] + [] == [Done];
  }
}
