// internal/cli/flagset.go: positionals split from flag tokens ahead of the flag
// parser, which must agree with it about which token is a value.
module SplitArgs {
  import opened Model
  import opened Search

  /** The declared flags: whether each takes a value from the next token. */
  datatype FlagSet = FlagSet(long: map<string, bool>, short: map<char, bool>)
  {
    /** Whether a dash token consumes the next token, as splitArgs reads it. */
    predicate FlagTakesValue(token: string) {
      if '=' in token then false
      else if HasPrefix(token, "---") then false
      else if HasPrefix(token, "--") then token[2..] in long && long[token[2..]]
      else if |token| == 2 then token[1] in short && short[token[1]]
      else false
    }

    // ---- The parser's own pairing rule ----

    /** Shorthands after one dash, read left to right: each that stands alone
        passes on to the next, and one that takes a value takes what follows it in
        the token, or else the next token. */
    predicate ShortTakes(s: string) {
      s != "" && s[0] in short && !(|s| > 2 && s[1] == '=') &&
      if short[s[0]] then |s| == 1 else ShortTakes(s[1..])
    }

    predicate ParserTakes(token: string)
      requires |token| >= 2 && token[0] == '-' && token != "--"
    {
      if token[1] == '-' then
        token[2] != '-' && '=' !in token && token[2..] in long && long[token[2..]]
      else ShortTakes(token[1..])
    }

    /** Stand-alone shorthands run together with one that takes a value, last. */
    predicate ValueCluster(token: string) {
      |token| > 2 && token[0] == '-' && token[1] != '-' && ShortTakes(token[1..])
    }
  }

  /** A flag token with the token it consumed, if any. */
  datatype Occurrence = Occurrence(token: string, value: Option<string>)

  /** A token the parser leaves over; lone marks a dash on its own ahead of the
      terminator, which splitArgs takes for a flag. */
  datatype Leftover = Leftover(token: string, lone: bool)

  datatype Parsed = Parsed(flags: seq<Occurrence>, leftovers: seq<Leftover>)
  {
    function Flag(o: Occurrence): Parsed { Parsed([o] + flags, leftovers) }

    function Leave(l: Leftover): Parsed { Parsed(flags, [l] + leftovers) }
  }

  function Verbatim(args: seq<string>): seq<Leftover> {
    seq(|args|, i requires 0 <= i < |args| => Leftover(args[i], false))
  }

  function Tokens(leftovers: seq<Leftover>): seq<string> {
    seq(|leftovers|, i requires 0 <= i < |leftovers| => leftovers[i].token)
  }

  /** How the parser pairs and leaves over a whole command line. */
  function Parse(fs: FlagSet, args: seq<string>): Parsed {
    if args == [] then Parsed([], [])
    else if args[0] == "--" then Parsed([], Verbatim(args[1..]))
    else if args[0] == "" || args[0][0] != '-' then Parse(fs, args[1..]).Leave(Leftover(args[0], false))
    else if args[0] == "-" then Parse(fs, args[1..]).Leave(Leftover(args[0], true))
    else if |args| > 1 && fs.ParserTakes(args[0]) then Parse(fs, args[2..]).Flag(Occurrence(args[0], Some(args[1])))
    else Parse(fs, args[1..]).Flag(Occurrence(args[0], None))
  }

  // ---- The split ----

  datatype Split = Split(positionals: seq<string>, flags: seq<string>) | TerminatorAsValue(flag: string)
  {
    function Positional(token: string): Split {
      if this.Split? then Split([token] + positionals, flags) else this
    }

    function Flags(tokens: seq<string>): Split {
      if this.Split? then Split(positionals, tokens + flags) else this
    }
  }

  function Min(a: nat, b: nat): nat { if a < b then a else b }

  function SplitOf(fs: FlagSet, args: seq<string>, ceiling: nat): Split {
    if args == [] then Split([], [])
    else if args[0] == "--" then
      var rest := args[1..];
      Split(rest[..Min(ceiling, |rest|)], ["--"] + rest[Min(ceiling, |rest|)..])
    else if HasPrefix(args[0], "-") then
      if |args| > 1 && fs.FlagTakesValue(args[0]) then
        if args[1] == "--" then TerminatorAsValue(args[0])
        else SplitOf(fs, args[2..], ceiling).Flags([args[0], args[1]])
      else SplitOf(fs, args[1..], ceiling).Flags([args[0]])
    else if ceiling > 0 then SplitOf(fs, args[1..], ceiling - 1).Positional(args[0])
    else SplitOf(fs, args[1..], ceiling).Flags([args[0]])
  }

  function After(positionals: seq<string>, flags: seq<string>, rest: Split): Split {
    if rest.Split? then Split(positionals + rest.positionals, flags + rest.flags) else rest
  }

  lemma AfterFlags(positionals: seq<string>, flags: seq<string>, tokens: seq<string>, rest: Split)
    ensures After(positionals, flags, rest.Flags(tokens)) == After(positionals, flags + tokens, rest)
  {
    if rest.Split? {
      assert flags + (tokens + rest.flags) == flags + tokens + rest.flags;
    }
  }

  lemma AfterPositional(positionals: seq<string>, flags: seq<string>, token: string, rest: Split)
    ensures After(positionals, flags, rest.Positional(token)) == After(positionals + [token], flags, rest)
  {
    if rest.Split? {
      assert positionals + ([token] + rest.positionals) == positionals + [token] + rest.positionals;
    }
  }

  /** The tokens ahead of index are split; the rest decides. */
  predicate SplitTo(
    fs: FlagSet, args: seq<string>, ceiling: nat, index: nat, positionals: seq<string>, flags: seq<string>) {
    index <= |args| && |positionals| <= ceiling &&
    SplitOf(fs, args, ceiling) == After(positionals, flags, SplitOf(fs, args[index..], ceiling - |positionals|))
  }

  predicate Pairs(fs: FlagSet, args: seq<string>, index: nat)
    requires index < |args|
  {
    index + 1 < |args| && fs.FlagTakesValue(args[index])
  }

  lemma FlagNext(fs: FlagSet, args: seq<string>, ceiling: nat, index: nat, positionals: seq<string>, flags: seq<string>)
    requires SplitTo(fs, args, ceiling, index, positionals, flags)
    requires index < |args| && args[index] != "--" && HasPrefix(args[index], "-")
    ensures !Pairs(fs, args, index) ==> SplitTo(fs, args, ceiling, index + 1, positionals, flags + [args[index]])
    ensures Pairs(fs, args, index) && args[index + 1] != "--" ==>
      SplitTo(fs, args, ceiling, index + 2, positionals, flags + [args[index], args[index + 1]])
    ensures Pairs(fs, args, index) && args[index + 1] == "--" ==>
      SplitOf(fs, args, ceiling) == TerminatorAsValue(args[index])
  {
    var from, left := args[index..], ceiling - |positionals|;
    assert from[0] == args[index] && from[1..] == args[index + 1..];
    if Pairs(fs, args, index) {
      assert from[1] == args[index + 1] && from[2..] == args[index + 2..];
      AfterFlags(positionals, flags, [from[0], from[1]], SplitOf(fs, from[2..], left));
    } else {
      AfterFlags(positionals, flags, [from[0]], SplitOf(fs, from[1..], left));
    }
  }

  lemma WordNext(fs: FlagSet, args: seq<string>, ceiling: nat, index: nat, positionals: seq<string>, flags: seq<string>)
    requires SplitTo(fs, args, ceiling, index, positionals, flags)
    requires index < |args| && args[index] != "--" && !HasPrefix(args[index], "-")
    ensures |positionals| < ceiling ==> SplitTo(fs, args, ceiling, index + 1, positionals + [args[index]], flags)
    ensures |positionals| == ceiling ==> SplitTo(fs, args, ceiling, index + 1, positionals, flags + [args[index]])
  {
    var from, left := args[index..], ceiling - |positionals|;
    assert from[0] == args[index] && from[1..] == args[index + 1..];
    if left > 0 {
      AfterPositional(positionals, flags, args[index], SplitOf(fs, from[1..], left - 1));
    } else {
      AfterFlags(positionals, flags, [args[index]], SplitOf(fs, from[1..], left));
    }
  }

  lemma TerminatorNext(
    fs: FlagSet, args: seq<string>, ceiling: nat, index: nat, positionals: seq<string>, flags: seq<string>)
    requires SplitTo(fs, args, ceiling, index, positionals, flags) && index < |args| && args[index] == "--"
    ensures var rest := args[index + 1..]; var taken := Min(ceiling - |positionals|, |rest|);
      SplitOf(fs, args, ceiling) == Split(positionals + rest[..taken], flags + ["--"] + rest[taken..])
  {
    var from, rest := args[index..], args[index + 1..];
    var taken := Min(ceiling - |positionals|, |rest|);
    assert from[0] == "--" && from[1..] == rest;
    assert flags + (["--"] + rest[taken..]) == flags + ["--"] + rest[taken..];
  }

  method SplitArgs(args: seq<string>, positionalCount: nat, fs: FlagSet) returns (r: Split)
    ensures r == SplitOf(fs, args, positionalCount)
  {
    var positionals: seq<string>, flags: seq<string> := [], [];
    var index := 0;
    assert args[0..] == args;
    while index < |args|
      invariant SplitTo(fs, args, positionalCount, index, positionals, flags)
    {
      var arg := args[index];
      if arg == "--" {
        TerminatorNext(fs, args, positionalCount, index, positionals, flags);
        flags := flags + [arg];
        positionals, flags := SplitRest(args[index + 1..], positionalCount, positionals, flags);
        return Split(positionals, flags);
      }
      if HasPrefix(arg, "-") {
        FlagNext(fs, args, positionalCount, index, positionals, flags);
        ghost var before := flags;
        flags := flags + [arg];
        if index + 1 < |args| && fs.FlagTakesValue(arg) {
          if args[index + 1] == "--" {
            return TerminatorAsValue(arg);
          }
          flags := flags + [args[index + 1]];
          assert flags == before + [arg, args[index + 1]];
          index := index + 1;
        }
        index := index + 1;
        continue;
      }
      WordNext(fs, args, positionalCount, index, positionals, flags);
      if |positionals| < positionalCount {
        positionals := positionals + [arg];
      } else {
        flags := flags + [arg];
      }
      index := index + 1;
    }
    r := Split(positionals, flags);
  }

  /** Behind the terminator every token is a positional, up to the ceiling. */
  method SplitRest(rest: seq<string>, positionalCount: nat, positionals0: seq<string>, flags0: seq<string>)
    returns (positionals: seq<string>, flags: seq<string>)
    requires |positionals0| <= positionalCount
    ensures var taken := Min(positionalCount - |positionals0|, |rest|);
      positionals == positionals0 + rest[..taken] && flags == flags0 + rest[taken..]
  {
    positionals, flags := positionals0, flags0;
    for i := 0 to |rest|
      invariant var taken := Min(positionalCount - |positionals0|, i);
        positionals == positionals0 + rest[..taken] && flags == flags0 + rest[taken..i]
    {
      if |positionals| < positionalCount {
        positionals := positionals + [rest[i]];
        continue;
      }
      flags := flags + [rest[i]];
    }
  }

  // ---- One token ----

  lemma {:induction false} NoEqualsInCluster(fs: FlagSet, s: string)
    requires '=' !in fs.short && fs.ShortTakes(s)
    ensures '=' !in s
  {
    assert s == [s[0]] + s[1..];
    if !fs.short[s[0]] {
      NoEqualsInCluster(fs, s[1..]);
    }
  }

  /** splitArgs and the parser agree about a flag token unless it is a cluster of
      shorthands ending in one that takes a value. */
  lemma TokensAgree(fs: FlagSet, token: string)
    requires '=' !in fs.short && |token| >= 2 && token[0] == '-' && token != "--"
    ensures fs.FlagTakesValue(token) == fs.ParserTakes(token) <==> !fs.ValueCluster(token)
  {
    Dashes(token);
    if token[1] != '-' {
      if fs.ShortTakes(token[1..]) {
        NoEqualsInCluster(fs, token[1..]);
        assert token == [token[0]] + token[1..];
      }
      if |token| == 2 {
        assert token[1..] == [token[1]] && token == ['-', token[1]];
        assert token[1..][0] == token[1] && token[1..][1..] == "";
        assert !fs.ShortTakes("");
        assert fs.ShortTakes(token[1..]) <==> token[1] in fs.short && fs.short[token[1]];
      }
    }
  }

  lemma Dashes(token: string)
    requires |token| >= 2 && token[0] == '-' && token != "--"
    ensures HasPrefix(token, "-")
    ensures HasPrefix(token, "--") <==> token[1] == '-'
    ensures HasPrefix(token, "--") ==> |token| > 2 && (HasPrefix(token, "---") <==> token[2] == '-')
    ensures !HasPrefix(token, "--") ==> !HasPrefix(token, "---")
  {
    AtChars(token, 0, "-");
    AtChars(token, 0, "--");
    AtChars(token, 0, "---");
    if |token| == 2 {
      assert token == [token[0], token[1]];
    }
  }

  // ---- The whole line ----

  /** Every flag on the line is one the split and the parser read alike. */
  predicate NoClusters(fs: FlagSet, args: seq<string>) {
    '=' !in fs.short && forall o <- Parse(fs, args).flags :: !fs.ValueCluster(o.token)
  }

  /** What a ceiling takes out of the parser's leftovers: its first so many,
      passing over dashes on their own. */
  function Taken(leftovers: seq<Leftover>, ceiling: nat): seq<string> {
    if leftovers == [] then []
    else if leftovers[0].lone then Taken(leftovers[1..], ceiling)
    else if ceiling > 0 then [leftovers[0].token] + Taken(leftovers[1..], ceiling - 1)
    else []
  }

  function Kept(leftovers: seq<Leftover>, ceiling: nat): seq<Leftover> {
    if leftovers == [] then []
    else if leftovers[0].lone || ceiling == 0 then [leftovers[0]] + Kept(leftovers[1..], ceiling)
    else Kept(leftovers[1..], ceiling - 1)
  }

  lemma {:induction false} TakenNone(leftovers: seq<Leftover>)
    ensures Taken(leftovers, 0) == []
  {
    if leftovers != [] {
      TakenNone(leftovers[1..]);
    }
  }

  lemma {:induction false} VerbatimSplits(rest: seq<string>, ceiling: nat)
    ensures Taken(Verbatim(rest), ceiling) == rest[..Min(ceiling, |rest|)]
    ensures Kept(Verbatim(rest), ceiling) == Verbatim(rest[Min(ceiling, |rest|)..])
  {
    if rest != [] {
      assert Verbatim(rest)[1..] == Verbatim(rest[1..]);
      VerbatimSplits(rest[1..], if ceiling > 0 then ceiling - 1 else 0);
      assert rest == [rest[0]] + rest[1..];
      if ceiling == 0 {
        assert Verbatim(rest) == [Leftover(rest[0], false)] + Verbatim(rest[1..]);
      }
    }
  }

  lemma StartsWithDash(token: string)
    ensures HasPrefix(token, "-") <==> token != "" && token[0] == '-'
  {
    AtChars(token, 0, "-");
  }

  /** What the split returns, read off the parser's reading of the whole line. */
  predicate SplitsLikeTheParser(fs: FlagSet, args: seq<string>, ceiling: nat, split: Split)
    requires split.Split?
  {
    var whole, stream := Parse(fs, args), Parse(fs, split.flags);
    stream.flags == whole.flags &&
    split.positionals == Taken(whole.leftovers, ceiling) && stream.leftovers == Kept(whole.leftovers, ceiling)
  }

  /** Parsing the returned stream gives every flag the value that parsing the whole
      line gives it. The positionals are the line's first leftovers up to the
      ceiling, and the stream's own leftovers are the others. */
  lemma {:induction false} StreamParsesAlike(fs: FlagSet, args: seq<string>, ceiling: nat)
    requires NoClusters(fs, args)
    requires SplitOf(fs, args, ceiling).Split?
    ensures SplitsLikeTheParser(fs, args, ceiling, SplitOf(fs, args, ceiling))
    decreases |args|
  {
    if args == [] {
    } else if args[0] == "--" {
      VerbatimSplits(args[1..], ceiling);
      var split := SplitOf(fs, args, ceiling);
      assert split.flags[1..] == args[1..][Min(ceiling, |args| - 1)..];
    } else {
      StartsWithDash(args[0]);
      if !HasPrefix(args[0], "-") {
        StreamParsesAlike(fs, args[1..], if ceiling > 0 then ceiling - 1 else 0);
        if ceiling == 0 {
          TakenNone(Parse(fs, args[1..]).leftovers);
          assert SplitOf(fs, args, ceiling).flags == [args[0]] + SplitOf(fs, args[1..], ceiling).flags;
        }
      } else if args[0] == "-" {
        StreamParsesAlike(fs, args[1..], ceiling);
        assert SplitOf(fs, args, ceiling).flags == [args[0]] + SplitOf(fs, args[1..], ceiling).flags;
      } else {
        FlagParsesAlike(fs, args, ceiling);
      }
    }
  }

  lemma FlagParsesAlike(fs: FlagSet, args: seq<string>, ceiling: nat)
    requires NoClusters(fs, args) && args != [] && |args[0]| >= 2 && args[0][0] == '-' && args[0] != "--"
    requires SplitOf(fs, args, ceiling).Split?
    ensures SplitsLikeTheParser(fs, args, ceiling, SplitOf(fs, args, ceiling))
    decreases |args|, 0
  {
    assert Parse(fs, args).flags[0].token == args[0];
    TokensAgree(fs, args[0]);
    StartsWithDash(args[0]);
    var split := SplitOf(fs, args, ceiling);
    var used := if |args| > 1 && fs.FlagTakesValue(args[0]) then 2 else 1;
    assert forall o <- Parse(fs, args[used..]).flags :: o in Parse(fs, args).flags;
    StreamParsesAlike(fs, args[used..], ceiling);
    assert split.flags == args[..used] + SplitOf(fs, args[used..], ceiling).flags;
    assert split.flags[used..] == SplitOf(fs, args[used..], ceiling).flags;
  }

  // ---- How many, and in what order ----

  function Positionals(leftovers: seq<Leftover>): nat {
    if leftovers == [] then 0 else (if leftovers[0].lone then 0 else 1) + Positionals(leftovers[1..])
  }

  lemma {:induction false} AsManyAsTheCeilingAllows(leftovers: seq<Leftover>, ceiling: nat)
    ensures |Taken(leftovers, ceiling)| == Min(ceiling, Positionals(leftovers))
    ensures |Taken(leftovers, ceiling)| + |Kept(leftovers, ceiling)| == |leftovers|
  {
    if leftovers != [] {
      AsManyAsTheCeilingAllows(leftovers[1..], if leftovers[0].lone || ceiling == 0 then ceiling else ceiling - 1);
    }
  }

  predicate AllDashes(tokens: seq<string>) { forall t <- tokens :: t == "-" }

  /** Nothing but a dash is extracted from behind a dash on its own. */
  predicate Undisturbed(leftovers: seq<Leftover>, ceiling: nat) {
    leftovers == [] ||
    if leftovers[0].lone then AllDashes(Taken(leftovers[1..], ceiling))
    else ceiling == 0 || Undisturbed(leftovers[1..], ceiling - 1)
  }

  function DashRun(n: nat): seq<string> { seq(n, i => "-") }

  predicate OrderKept(leftovers: seq<Leftover>, ceiling: nat, skipped: nat) {
    Taken(leftovers, ceiling) + DashRun(skipped) + Tokens(Kept(leftovers, ceiling)) ==
    DashRun(skipped) + Tokens(leftovers)
  }

  lemma TokensOf(leftovers: seq<Leftover>)
    requires leftovers != []
    ensures Tokens(leftovers) == [leftovers[0].token] + Tokens(leftovers[1..])
  {
  }

  lemma DashRunEnds(n: nat)
    ensures DashRun(n) + ["-"] == DashRun(n + 1) == ["-"] + DashRun(n)
  {
  }

  predicate LonesAreDashes(leftovers: seq<Leftover>) { forall l <- leftovers :: l.lone ==> l.token == "-" }

  lemma NextLone(leftovers: seq<Leftover>, ceiling: nat, skipped: nat)
    requires leftovers != [] && leftovers[0] == Leftover("-", true)
    ensures OrderKept(leftovers, ceiling, skipped) <==> OrderKept(leftovers[1..], ceiling, skipped + 1)
  {
    DashRunEnds(skipped);
    TokensOf(leftovers);
    TokensOf(Kept(leftovers, ceiling));
    var front, back := Taken(leftovers, ceiling), Tokens(Kept(leftovers[1..], ceiling));
    assert Kept(leftovers, ceiling)[1..] == Kept(leftovers[1..], ceiling);
    assert front + DashRun(skipped) + (["-"] + back) == front + (DashRun(skipped) + ["-"]) + back;
    assert DashRun(skipped) + (["-"] + Tokens(leftovers[1..])) == DashRun(skipped) + ["-"] + Tokens(leftovers[1..]);
  }

  lemma SameHead(head: seq<string>, a: seq<string>, b: seq<string>)
    ensures head + a == head + b <==> a == b
  {
    if head + a == head + b {
      assert a == (head + a)[|head|..] == (head + b)[|head|..] == b;
    }
  }

  lemma NextTaken(leftovers: seq<Leftover>, ceiling: nat, skipped: nat)
    requires leftovers != [] && !leftovers[0].lone && ceiling > 0
    ensures OrderKept(leftovers, ceiling, skipped) <==>
      (skipped == 0 || leftovers[0].token == "-") && OrderKept(leftovers[1..], ceiling - 1, skipped)
  {
    var t, front, back :=
      leftovers[0].token, Taken(leftovers[1..], ceiling - 1), Tokens(Kept(leftovers[1..], ceiling - 1));
    var dashes, behind := DashRun(skipped), Tokens(leftovers[1..]);
    TokensOf(leftovers);
    TakenFirst(leftovers, ceiling, skipped, t, front, dashes, back, behind);
    PastTheDashes(t, skipped, front + dashes + back, behind);
    assert [t] + front + dashes + back == [t] + (front + dashes + back);
  }

  lemma TakenFirst(
    leftovers: seq<Leftover>, ceiling: nat, skipped: nat, t: string, front: seq<string>, dashes: seq<string>,
    back: seq<string>, behind: seq<string>)
    requires leftovers != [] && !leftovers[0].lone && ceiling > 0 && t == leftovers[0].token
    requires front == Taken(leftovers[1..], ceiling - 1) && back == Tokens(Kept(leftovers[1..], ceiling - 1))
    requires dashes == DashRun(skipped) && Tokens(leftovers) == [t] + behind
    ensures OrderKept(leftovers, ceiling, skipped) <==> [t] + front + dashes + back == dashes + ([t] + behind)
  {
  }

  lemma PastTheDashes(t: string, skipped: nat, a: seq<string>, b: seq<string>)
    ensures [t] + a == DashRun(skipped) + ([t] + b) <==> (skipped == 0 || t == "-") && a == DashRun(skipped) + b
  {
    var dashes, left, right := DashRun(skipped), [t] + a, DashRun(skipped) + ([t] + b);
    assert left[0] == t && right[0] == if skipped == 0 then t else "-";
    if skipped == 0 || t == "-" {
      assert dashes + [t] == [t] + dashes;
      assert right == dashes + [t] + b == [t] + (dashes + b);
      SameHead([t], a, dashes + b);
    }
  }

  lemma FirstOfTheDashes(t: string, front: seq<string>)
    ensures AllDashes([t] + front) <==> t == "-" && AllDashes(front)
  {
    if AllDashes([t] + front) {
      assert t in [t] + front;
      forall u | u in front ensures u == "-" {
        assert u in [t] + front;
      }
    }
  }

  /** With dashes already passed over, order is kept iff only dashes are taken. */
  lemma {:induction false} BehindADash(leftovers: seq<Leftover>, ceiling: nat, skipped: nat)
    requires LonesAreDashes(leftovers) && skipped > 0
    ensures OrderKept(leftovers, ceiling, skipped) <==> AllDashes(Taken(leftovers, ceiling))
  {
    if leftovers == [] {
    } else if leftovers[0].lone {
      NextLone(leftovers, ceiling, skipped);
      BehindADash(leftovers[1..], ceiling, skipped + 1);
    } else if ceiling > 0 {
      NextTaken(leftovers, ceiling, skipped);
      BehindADash(leftovers[1..], ceiling - 1, skipped);
      var t, front := leftovers[0].token, Taken(leftovers[1..], ceiling - 1);
      assert Taken(leftovers, ceiling) == [t] + front;
      FirstOfTheDashes(t, front);
    } else {
      KeptAll(leftovers);
    }
  }

  lemma {:induction false} KeptAll(leftovers: seq<Leftover>)
    ensures Kept(leftovers, 0) == leftovers && Taken(leftovers, 0) == []
  {
    if leftovers != [] {
      KeptAll(leftovers[1..]);
    }
  }

  lemma {:induction false} OrderKeptIff(leftovers: seq<Leftover>, ceiling: nat)
    requires LonesAreDashes(leftovers)
    ensures OrderKept(leftovers, ceiling, 0) <==> Undisturbed(leftovers, ceiling)
  {
    if leftovers == [] {
    } else if leftovers[0].lone {
      NextLone(leftovers, ceiling, 0);
      BehindADash(leftovers[1..], ceiling, 1);
    } else if ceiling > 0 {
      NextTaken(leftovers, ceiling, 0);
      OrderKeptIff(leftovers[1..], ceiling - 1);
    } else {
      KeptAll(leftovers);
    }
  }

  lemma {:induction false} ParsedLones(fs: FlagSet, args: seq<string>)
    ensures LonesAreDashes(Parse(fs, args).leftovers)
    decreases |args|
  {
    if args != [] && args[0] != "--" {
      ParsedLones(fs, args[1..]);
      if |args| > 1 {
        ParsedLones(fs, args[2..]);
      }
    }
  }

  /** The positionals and then the stream's leftovers are the line's own
      positionals, in order, exactly when nothing but a dash is extracted from
      behind a dash on its own; and as many are extracted as there are, up to the
      ceiling. */
  lemma PositionalsKeepTheirOrder(fs: FlagSet, args: seq<string>, ceiling: nat)
    requires NoClusters(fs, args)
    requires SplitOf(fs, args, ceiling).Split?
    ensures var split, whole := SplitOf(fs, args, ceiling), Parse(fs, args).leftovers;
      (split.positionals + Tokens(Parse(fs, split.flags).leftovers) == Tokens(whole) <==>
        Undisturbed(whole, ceiling)) &&
      |split.positionals| == Min(ceiling, Positionals(whole))
  {
    var whole := Parse(fs, args).leftovers;
    StreamParsesAlike(fs, args, ceiling);
    ParsedLones(fs, args);
    OrderKeptIff(whole, ceiling);
    AsManyAsTheCeilingAllows(whole, ceiling);
    var front := Taken(whole, ceiling);
    assert front + DashRun(0) == front && DashRun(0) + Tokens(whole) == Tokens(whole);
  }

  /** A line with no dash on its own ahead of the terminator is never disturbed. */
  lemma {:induction false} NoLoneDashNoDisturbance(leftovers: seq<Leftover>, ceiling: nat)
    requires forall l <- leftovers :: !l.lone
    ensures Undisturbed(leftovers, ceiling)
  {
    if leftovers != [] && ceiling > 0 {
      NoLoneDashNoDisturbance(leftovers[1..], ceiling - 1);
    }
  }

  lemma LoneDashIsOvertaken(fs: FlagSet)
    ensures SplitOf(fs, ["-", "a"], 1) == Split(["a"], ["-"])
    ensures Tokens(Parse(fs, ["-", "a"]).leftovers) == ["-", "a"]
    ensures Tokens(Parse(fs, ["-"]).leftovers) == ["-"]
  {
    StartsWithDash("-");
    StartsWithDash("a");
    assert ["-", "a"][1..] == ["a"] && ["a"][1..] == [] && ["-"][1..] == [];
    assert Parse(fs, ["a"]).leftovers == [Leftover("a", false)];
    assert Parse(fs, ["-"]).leftovers == [Leftover("-", true)];
    assert Parse(fs, ["-", "a"]).leftovers == [Leftover("-", true), Leftover("a", false)];
    assert SplitOf(fs, ["a"], 1) == Split(["a"], []);
  }

  // ---- The terminator as a value ----

  /** The parser pairs the first flag as the split does; used is how many tokens it
      spends. */
  lemma FlagParsed(fs: FlagSet, args: seq<string>) returns (used: nat)
    requires NoClusters(fs, args) && args != [] && |args[0]| >= 2 && args[0][0] == '-' && args[0] != "--"
    ensures used == if |args| > 1 && fs.FlagTakesValue(args[0]) then 2 else 1
    ensures Parse(fs, args) ==
      Parse(fs, args[used..]).Flag(Occurrence(args[0], if used == 2 then Some(args[1]) else None))
    ensures NoClusters(fs, args[used..])
  {
    assert Parse(fs, args).flags[0].token == args[0];
    TokensAgree(fs, args[0]);
    used := if |args| > 1 && fs.FlagTakesValue(args[0]) then 2 else 1;
    assert forall o <- Parse(fs, args[used..]).flags :: o in Parse(fs, args).flags;
  }

  function TerminatorTakers(flags: seq<Occurrence>): seq<string> {
    if flags == [] then []
    else (if flags[0].value == Some("--") then [flags[0].token] else []) + TerminatorTakers(flags[1..])
  }

  /** The split refuses a line exactly when the parser would read the terminator as
      some flag's value, and names the first such flag. */
  lemma {:induction false} RefusesTheTerminatorAsValue(fs: FlagSet, args: seq<string>, ceiling: nat)
    requires NoClusters(fs, args)
    ensures var takers := TerminatorTakers(Parse(fs, args).flags);
      if takers == [] then SplitOf(fs, args, ceiling).Split?
      else SplitOf(fs, args, ceiling) == TerminatorAsValue(takers[0])
    decreases |args|
  {
    if args != [] && args[0] != "--" {
      StartsWithDash(args[0]);
      if !HasPrefix(args[0], "-") {
        RefusesTheTerminatorAsValue(fs, args[1..], if ceiling > 0 then ceiling - 1 else 0);
      } else if args[0] == "-" {
        RefusesTheTerminatorAsValue(fs, args[1..], ceiling);
      } else {
        var used := FlagParsed(fs, args);
        RefusesTheTerminatorAsValue(fs, args[used..], ceiling);
      }
    }
  }

  // ---- Clusters ----

  lemma {:induction false} NoValueShorthand(fs: FlagSet, s: string)
    requires forall c | c in fs.short :: !fs.short[c]
    ensures !fs.ShortTakes(s)
  {
    if s != "" {
      NoValueShorthand(fs, s[1..]);
    }
  }

  /** The program declares no shorthand that takes a value, so no line of its own
      has a cluster. */
  lemma NoClusterIsDeclared(fs: FlagSet, args: seq<string>)
    requires '=' !in fs.short && forall c | c in fs.short :: !fs.short[c]
    ensures NoClusters(fs, args)
  {
    forall o <- Parse(fs, args).flags ensures !fs.ValueCluster(o.token) {
      if |o.token| > 2 {
        NoValueShorthand(fs, o.token[1..]);
      }
    }
  }

  predicate SameFlagValues(fs: FlagSet, args: seq<string>, ceiling: nat) {
    var split := SplitOf(fs, args, ceiling);
    split.Split? && Parse(fs, split.flags).flags == Parse(fs, args).flags
  }

  /** A flag token is read alike in front of every word exactly when it is no
      cluster of shorthands ending in one that takes a value. */
  lemma ClustersAreMisread(fs: FlagSet, token: string)
    requires '=' !in fs.short && |token| >= 2 && token[0] == '-' && token != "--"
    ensures (forall word: string | !HasPrefix(word, "-") :: SameFlagValues(fs, [token, word], 1)) <==>
      !fs.ValueCluster(token)
  {
    forall word: string | !HasPrefix(word, "-")
      ensures SameFlagValues(fs, [token, word], 1) <==> !fs.ValueCluster(token)
    {
      BeforeAWord(fs, token, word);
    }
    assert !HasPrefix("", "-");
  }

  lemma BeforeAWord(fs: FlagSet, token: string, word: string)
    requires '=' !in fs.short && |token| >= 2 && token[0] == '-' && token != "--" && !HasPrefix(word, "-")
    ensures SameFlagValues(fs, [token, word], 1) <==> !fs.ValueCluster(token)
  {
    var args := [token, word];
    TokensAgree(fs, token);
    StartsWithDash(token);
    StartsWithDash(word);
    StartsWithDash("--");
    assert args[1..] == [word] && args[2..] == [] && [word][1..] == [] && [token][1..] == [];
    assert SplitOf(fs, [word], 1) == Split([word], []);
    assert Parse(fs, [word]).flags == [];
    if fs.FlagTakesValue(token) {
      assert SplitOf(fs, args, 1).flags == args;
    } else {
      assert SplitOf(fs, args, 1).flags == [token];
      assert Parse(fs, [token]).flags == [Occurrence(token, None)];
      assert Parse(fs, args).flags[0].value == if fs.ParserTakes(token) then Some(word) else None;
    }
  }
}