/** The kernel shell's command line (kern/src/shell.rs): a line is split on
  * spaces into at most a buffer's worth of arguments, the first of which
  * names the command. */
module Shells {
  import opened Common

  /** `Error`: the parse failures. */
  datatype ParseError = Empty | TooManyArgs

  /** `Command`: its arguments, the first of which is the path. */
  datatype Command = Command(args: seq<string>)

  /** The size of the argument buffer `run` hands to `parse`. */
  const ArgCapacity: nat := 64

  /** `s.split(' ')`: the pieces between spaces, empty ones included. */
  function Split(s: string): (r: seq<string>)
    ensures |r| >= 1
    decreases |s|
  {
    if s == [] then [[]]
    else
      var init := Split(s[..|s| - 1]);
      var c := s[|s| - 1];
      if c == ' ' then init + [[]]
      else init[..|init| - 1] + [init[|init| - 1] + [c]]
  }

  /** The inverse of `Split`: the pieces joined with single spaces. */
  function Join(ws: seq<string>): (r: string)
    requires |ws| >= 1
    decreases |ws|
  {
    if |ws| == 1 then ws[0] else Join(ws[..|ws| - 1]) + [' '] + ws[|ws| - 1]
  }

  /** `.filter(|a| !a.is_empty())`. */
  function NonEmpty(ws: seq<string>): (r: seq<string>)
    ensures |r| <= |ws|
    ensures forall k :: 0 <= k < |r| ==> r[k] != [] && r[k] in ws
    decreases |ws|
  {
    if ws == [] then []
    else if ws[|ws| - 1] == [] then NonEmpty(ws[..|ws| - 1])
    else NonEmpty(ws[..|ws| - 1]) + [ws[|ws| - 1]]
  }

  /** The arguments of a line. */
  function Words(s: string): seq<string>
  {
    NonEmpty(Split(s))
  }

  /** `Command::parse` with a buffer of `capacity` arguments. */
  function Parsed(s: string, capacity: nat): (r: Result<Command, ParseError>)
  {
    if |Words(s)| > capacity then Err(TooManyArgs)
    else if Words(s) == [] then Err(Empty)
    else Ok(Command(Words(s)))
  }

  lemma {:induction false} NonEmptyAppend(a: seq<string>, b: seq<string>)
    ensures NonEmpty(a + b) == NonEmpty(a) + NonEmpty(b)
    decreases |b|
  {
    if b == [] {
      assert a + b == a;
    } else {
      var b' := b[..|b| - 1];
      assert (a + b)[..|a + b| - 1] == a + b';
      NonEmptyAppend(a, b');
    }
  }

  lemma {:induction false} NonEmptyKeeps(ws: seq<string>)
    requires forall k :: 0 <= k < |ws| ==> ws[k] != []
    ensures NonEmpty(ws) == ws
    decreases |ws|
  {
    if ws != [] {
      NonEmptyKeeps(ws[..|ws| - 1]);
      assert ws[..|ws| - 1] + [ws[|ws| - 1]] == ws;
    }
  }

  /** A space and one more piece at the end. */
  lemma JoinSnoc(ws: seq<string>, w: string)
    requires |ws| >= 1
    ensures Join(ws + [w]) == Join(ws) + [' '] + w
  {
    assert (ws + [w])[..|ws|] == ws;
  }

  /** One more character on the last piece. */
  lemma JoinExtendLast(ws: seq<string>, c: char)
    requires |ws| >= 1
    ensures Join(ws[..|ws| - 1] + [ws[|ws| - 1] + [c]]) == Join(ws) + [c]
  {
    var n := |ws|;
    var v := ws[..n - 1] + [ws[n - 1] + [c]];
    if n > 1 {
      assert v[..n - 1] == ws[..n - 1];
      assert Join(v) == Join(ws[..n - 1]) + [' '] + (ws[n - 1] + [c]);
    }
  }

  /** Joining the pieces of a line gives the line back. */
  lemma {:induction false} JoinSplit(s: string)
    ensures Join(Split(s)) == s
    decreases |s|
  {
    if s != [] {
      var s' := s[..|s| - 1];
      var c := s[|s| - 1];
      JoinSplit(s');
      var init := Split(s');
      assert s == s' + [c];
      if c != ' ' {
        JoinExtendLast(init, c);
      } else {
        JoinSnoc(init, []);
      }
    }
  }

  /** No piece holds a space. */
  lemma {:induction false} SplitHasNoSpaces(s: string)
    ensures forall k :: 0 <= k < |Split(s)| ==> ' ' !in Split(s)[k]
    decreases |s|
  {
    if s != [] {
      SplitHasNoSpaces(s[..|s| - 1]);
    }
  }

  /** A line without spaces is one piece. */
  lemma {:induction false} SplitWord(w: string)
    requires ' ' !in w
    ensures Split(w) == [w]
    decreases |w|
  {
    if w != [] {
      assert w[..|w| - 1] + [w[|w| - 1]] == w;
      SplitWord(w[..|w| - 1]);
    }
  }

  /** A space followed by a space-free word adds one piece. */
  lemma {:induction false} SplitSpaceWord(a: string, w: string)
    requires ' ' !in w
    ensures Split(a + [' '] + w) == Split(a) + [w]
    decreases |w|
  {
    if w == [] {
      assert (a + [' '] + w)[..|a + [' '] + w| - 1] == a;
    } else {
      var w' := w[..|w| - 1];
      assert (a + [' '] + w)[..|a + [' '] + w| - 1] == a + [' '] + w';
      SplitSpaceWord(a, w');
      assert w' + [w[|w| - 1]] == w;
    }
  }

  /** Splitting space-free words joined with spaces gives the words back. */
  lemma {:induction false} SplitJoin(ws: seq<string>)
    requires |ws| >= 1
    requires forall k :: 0 <= k < |ws| ==> ' ' !in ws[k]
    ensures Split(Join(ws)) == ws
    decreases |ws|
  {
    if |ws| == 1 {
      SplitWord(ws[0]);
    } else {
      SplitJoin(ws[..|ws| - 1]);
      SplitSpaceWord(Join(ws[..|ws| - 1]), ws[|ws| - 1]);
      assert ws[..|ws| - 1] + [ws[|ws| - 1]] == ws;
    }
  }

  /** A parsed command has at least one and at most `capacity` arguments,
    * none empty and none holding a space, and parsing the arguments joined
    * with single spaces gives the same command back. */
  lemma ParsedSpec(s: string, capacity: nat)
    ensures Parsed(s, capacity).Ok? <==> 1 <= |Words(s)| <= capacity
    ensures Parsed(s, capacity) == Err(Empty) <==> Words(s) == []
    ensures Parsed(s, capacity).Ok? ==>
      var args := Parsed(s, capacity).value.args;
      (forall k :: 0 <= k < |args| ==> args[k] != [] && ' ' !in args[k])
      && Parsed(Join(args), capacity) == Parsed(s, capacity)
  {
    var ws := Words(s);
    SplitHasNoSpaces(s);
    if 1 <= |ws| <= capacity {
      forall k | 0 <= k < |ws|
        ensures ws[k] != [] && ' ' !in ws[k]
      {
        var j :| 0 <= j < |Split(s)| && Split(s)[j] == ws[k];
      }
      SplitJoin(ws);
      NonEmptyKeeps(ws);
    }
  }

  /** Arguments whose pieces have all been ended by a space. */
  function Completed(s: string): seq<string>
  {
    var p := Split(s);
    NonEmpty(p[..|p| - 1])
  }

  /** The piece still being read. */
  function Current(s: string): string
  {
    var p := Split(s);
    p[|p| - 1]
  }

  lemma WordsNow(s: string)
    ensures Words(s) == Completed(s) + NonEmpty([Current(s)])
  {
    var p := Split(s);
    assert p[..|p| - 1] + [p[|p| - 1]] == p;
    NonEmptyAppend(p[..|p| - 1], [p[|p| - 1]]);
  }

  /** Reading one more character: a space ends the current piece, another
    * character extends it. */
  lemma Step(s: string, c: char)
    ensures c == ' ' ==> Completed(s + [c]) == Words(s) && Current(s + [c]) == []
    ensures c != ' ' ==> Completed(s + [c]) == Completed(s) && Current(s + [c]) == Current(s) + [c]
  {
    assert (s + [c])[..|s + [c]| - 1] == s;
    WordsNow(s);
    if c == ' ' {
      var p := Split(s + [c]);
      assert p[..|p| - 1] == Split(s);
    }
  }

  /** The arguments completed so far never outnumber those of the whole line. */
  lemma {:induction false} CompletedAtMost(s: string, i: nat)
    requires i <= |s|
    ensures |Completed(s[..i])| <= |Words(s)|
    decreases |s| - i
  {
    if i == |s| {
      assert s[..i] == s;
      WordsNow(s);
    } else {
      assert s[..i + 1] == s[..i] + [s[i]];
      Step(s[..i], s[i]);
      WordsNow(s[..i]);
      CompletedAtMost(s, i + 1);
    }
  }

  /** `Command::parse`: each argument is pushed as the split reaches it; a
    * push beyond the buffer fails at once. */
  method Parse(s: string, capacity: nat) returns (r: Result<Command, ParseError>)
    ensures r == Parsed(s, capacity)
  {
    var args: seq<string> := [];
    var current: string := [];
    var i := 0;
    while i < |s|
      invariant 0 <= i <= |s|
      invariant args == Completed(s[..i]) && |args| <= capacity
      invariant current == Current(s[..i])
    {
      assert s[..i + 1] == s[..i] + [s[i]];
      Step(s[..i], s[i]);
      WordsNow(s[..i]);
      if s[i] == ' ' {
        if current != [] {
          if |args| == capacity {
            CompletedAtMost(s, i + 1);
            return Err(TooManyArgs);
          }
          args := args + [current];
        }
        current := [];
      } else {
        current := current + [s[i]];
      }
      i := i + 1;
    }
    assert s[..i] == s;
    WordsNow(s);
    if current != [] {
      if |args| == capacity {
        return Err(TooManyArgs);
      }
      args := args + [current];
    }
    if args == [] {
      return Err(Empty);
    }
    r := Ok(Command(args));
  }

  /** `Command::path`: the first argument. */
  function Path(c: Command): (r: string)
    requires c.args != []
    ensures r in c.args
  {
    c.args[0]
  }

  /** The commands `run_command` knows. */
  datatype Action = Echo | Pwd | Cd | Ls | Cat | Exit | Unknown

  /** `run_command`'s dispatch on the path. */
  function Dispatch(path: string): (r: Action)
    ensures r == Exit <==> path == "exit"
    ensures r == Cd <==> path == "cd"
    ensures r == Unknown <==> path !in {"echo", "pwd", "cd", "ls", "cat", "exit"}
  {
    if path == "echo" then Echo
    else if path == "pwd" then Pwd
    else if path == "cd" then Cd
    else if path == "ls" then Ls
    else if path == "cat" then Cat
    else if path == "exit" then Exit
    else Unknown
  }

  /** `Shell`: its prompt prefix, working directory and whether it goes on
    * reading commands. */
  class Shell {
    const prefix: string
    var cwd: string
    var open: bool

    /** `Shell::new`: at the root, open. */
    constructor(prefix: string)
      ensures this.prefix == prefix && cwd == "/" && open
    {
      this.prefix := prefix;
      cwd := "/";
      open := true;
    }

    /** `exit`: the shell stops after this command. */
    method Exit()
      modifies this
      ensures !open && cwd == old(cwd)
    {
      open := false;
    }

    /** `run_command`.  `entered` is the directory `cd` opens when the
      * file system finds one at the pushed path, None otherwise; it is
      * only consulted by `cd` with an argument.  The output of `echo`,
      * `pwd`, `ls`, `cat` and of an unknown command is not modelled. */
    method RunCommand(command: Command, entered: Option<string>)
      requires command.args != []
      modifies this
      ensures open == (old(open) && Dispatch(Path(command)) != Action.Exit)
      ensures cwd == (if Dispatch(Path(command)) == Cd && |command.args| >= 2 && entered.Some?
        then entered.value else old(cwd))
    {
      var action := Dispatch(Path(command));
      if action == Cd {
        if |command.args| >= 2 && entered.Some? {
          cwd := entered.value;
        }
      } else if action == Action.Exit {
        Exit();
      }
    }
  }

  /** A line reading `exit` (with any spacing) closes the shell. */
  method ExitLineCloses(line: string) returns (open: bool)
    requires Words(line) == ["exit"]
    ensures !open
  {
    var shell := new Shell("");
    var r := Parse(line, ArgCapacity);
    shell.RunCommand(r.value, None);
    open := shell.open;
  }
}
