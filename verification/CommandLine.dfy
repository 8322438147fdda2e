/** Splitting a command line into its arguments, with quotes and escapes. */
module CommandLine {
  import opened Basics
  import opened Texts

  const SINGLE := '\''
  const DOUBLE := '"'
  const BACKSLASH := '\\'

  datatype Parsed = Arguments(args: seq<string>) | Unfinished | NoCommand

  datatype State = State(args: seq<string>, token: string, quote: Option<char>, escaped: bool, started: bool)

  const INITIAL := State([], "", None, false, false)

  function Step(s: State, c: char): State {
    if s.escaped then s.(token := s.token + [c], escaped := false, started := true)
    else if c == BACKSLASH && s.quote != Some(SINGLE) then s.(escaped := true, started := true)
    else if s.quote.Some? then
      if s.quote == Some(c) then s.(quote := None, started := true) else s.(token := s.token + [c], started := true)
    else if c == SINGLE || c == DOUBLE then s.(quote := Some(c), started := true)
    else if IsSpace(c) then
      if s.started then s.(args := s.args + [s.token], token := "", started := false) else s
    else s.(token := s.token + [c], started := true)
  }

  function Run(s: State, input: string): State {
    if input == "" then s else Step(Run(s, input[..|input| - 1]), input[|input| - 1])
  }

  function Finish(s: State): Parsed {
    if s.quote.Some? || s.escaped then Unfinished
    else
      var args := if s.started then s.args + [s.token] else s.args;
      if args == [] || args[0] == "" then NoCommand else Arguments(args)
  }

  function Parse(input: string): Parsed {
    Finish(Run(INITIAL, input))
  }

  lemma RunNext(s: State, input: string, c: char)
    ensures Run(s, input + [c]) == Step(Run(s, input), c)
  {
    assert (input + [c])[..|input|] == input;
  }

  lemma {:induction false} RunBoth(s: State, u: string, v: string)
    ensures Run(s, u + v) == Run(Run(s, u), v)
  {
    if v == "" {
      assert u + v == u;
    } else {
      var n := |v| - 1;
      RunBoth(s, u, v[..n]);
      assert u + v == (u + v[..n]) + [v[n]];
      RunNext(s, u + v[..n], v[n]);
    }
  }

  method CommandArguments(input: string) returns (result: Parsed)
    ensures result == Parse(input)
  {
    var args: seq<string> := [];
    var token, escaped, started := "", false, false;
    var quote: Option<char> := None;
    for i := 0 to |input|
      invariant State(args, token, quote, escaped, started) == Run(INITIAL, input[..i])
    {
      var c := input[i];
      assert input[..i + 1] == input[..i] + [c];
      RunNext(INITIAL, input[..i], c);
      if escaped {
        token, escaped, started := token + [c], false, true;
      } else if c == BACKSLASH && quote != Some(SINGLE) {
        escaped, started := true, true;
      } else if quote.Some? {
        if quote == Some(c) {
          quote := None;
        } else {
          token := token + [c];
        }
        started := true;
      } else if c == SINGLE || c == DOUBLE {
        quote, started := Some(c), true;
      } else if IsSpace(c) {
        if started {
          args, token, started := args + [token], "", false;
        }
      } else {
        token, started := token + [c], true;
      }
    }
    assert input[..|input|] == input;
    if quote.Some? || escaped {
      return Unfinished;
    }
    if started {
      args := args + [token];
    }
    if args == [] || args[0] == "" {
      return NoCommand;
    }
    return Arguments(args);
  }
}
