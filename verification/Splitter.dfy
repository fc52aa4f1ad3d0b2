/**
  How client.c cuts its argument list into commands: `commands_new` and
  `command_consume_arguments`.
 */
module Splitter {

  const OPTIONS_WITH_ARGUMENT := ['d', 'M', 'm', 'b', 'a', 's', 'f']

  /** `command_arity(str2id(name))`. */
  function Arity(name: string): int {
    if name in {"load", "save", "poke", "peek", "jump", "run", "help", "server", "relocate"} then 1
    else if name in {"reset", "ready", "ping", "bootloader", "benchmark", "identify"} then 0
    else if name in {"kernal", "fill"} then 2
    else -1
  }

  predicate IsCommand(word: string) {
    Arity(word) >= 0
  }

  predicate IsOption(word: string) {
    word != "" && word[0] == '-'
  }

  /** `isOptarg`: whether the word behind this one is its argument. */
  predicate TakesArgument(word: string) {
    IsOption(word)
    && ((|word| == 2 && word[1] in OPTIONS_WITH_ARGUMENT) || (|word| > 2 && word[2] in OPTIONS_WITH_ARGUMENT))
  }

  datatype Command = Command(name: string, args: seq<string>)

  // ---- what a right cut is --------------------------------------------------------------------

  type Words = seq<string>

  /** Where the arguments of a command that begins at `i` begin. */
  function FirstArgument(argv: Words, i: nat): nat
    requires i < |argv|
  {
    if IsCommand(argv[i]) then i + 1 else i
  }

  /** Word `k` of a command that begins at `i` is neither an option nor the argument of one. */
  predicate Positional(argv: Words, i: nat, k: nat)
    requires i <= k < |argv|
  {
    !IsOption(argv[k]) && !(k > i && TakesArgument(argv[k - 1]))
  }

  function Positionals(argv: Words, i: nat, from: nat, to: nat): (n: nat)
    requires i <= from <= to <= |argv|
    ensures n <= to - from
  {
    if from == to then 0
    else Positionals(argv, i, from, to - 1) + if Positional(argv, i, to - 1) then 1 else 0
  }

  /** Word `k` is a command and not the argument of an option. */
  predicate StartsCommand(argv: Words, k: nat)
    requires k < |argv|
  {
    IsCommand(argv[k]) && (k == 0 || !TakesArgument(argv[k - 1]))
  }

  /** The command that begins at `i` has all it takes when it reaches `j`. */
  predicate Complete(argv: Words, i: nat, j: nat)
    requires i < j <= |argv|
  {
    Arity(argv[i]) > 0 && Positionals(argv, i, FirstArgument(argv, i), j) >= Arity(argv[i])
  }

  /** Words `i` to `j` are one command: as long as possible, but not longer than it may be. */
  ghost predicate IsCut(argv: Words, i: nat, j: nat) {
    && i < j <= |argv|
    && (forall k :: i < k < j ==> !StartsCommand(argv, k) && !Complete(argv, i, k))
    && (j == |argv| || StartsCommand(argv, j) || Complete(argv, i, j))
  }

  /** The cut is determined by where the command begins. */
  lemma CutUnique(argv: Words, i: nat, j: nat, k: nat)
    requires IsCut(argv, i, j) && IsCut(argv, i, k)
    ensures j == k
  {
  }

  /** A command of positive arity takes at most that many positionals and ends at the last one. */
  lemma CutRespectsArity(argv: Words, i: nat, j: nat)
    requires IsCut(argv, i, j) && Arity(argv[i]) > 0
    ensures var n := Positionals(argv, i, FirstArgument(argv, i), j);
            && n <= Arity(argv[i])
            && (n == Arity(argv[i]) ==> Positional(argv, i, j - 1))
  {
    if j - 1 > i {
      assert !Complete(argv, i, j - 1);
    }
  }

  // ---- client.c ---------------------------------------------------------------------------------

  /** The command that begins at `i` goes on to word `j`, with `consumed` positionals so far. */
  ghost predicate Underway(argv: Words, i: nat, j: nat, consumed: int) {
    && i < |argv| && FirstArgument(argv, i) <= j <= |argv|
    && (if Arity(argv[i]) > 0 then consumed == Positionals(argv, i, FirstArgument(argv, i), j) <= Arity(argv[i])
        else consumed == 0)
    && (forall k :: i < k < j ==> !StartsCommand(argv, k) && !Complete(argv, i, k))
    && (consumed == Arity(argv[i]) > 0 ==> j > i && !TakesArgument(argv[j - 1]))
  }

  /** One more word: what the loop counts as a positional is one. */
  lemma OneMoreWord(argv: Words, i: nat, j: nat, consumed: int)
    requires Underway(argv, i, j, consumed) && j < |argv|
    requires j > i ==> !StartsCommand(argv, j) && !Complete(argv, i, j)
    ensures Underway(argv, i, j + 1,
                     if consumed < Arity(argv[i]) && Positional(argv, i, j) then consumed + 1 else consumed)
  {
  }

  /** The loop stops where the command has all it takes, or where another one begins. */
  lemma StopsAtCut(argv: Words, i: nat, j: nat, consumed: int)
    requires Underway(argv, i, j, consumed) && i < j
    requires j == |argv| || StartsCommand(argv, j) || consumed == Arity(argv[i]) > 0
    ensures IsCut(argv, i, j)
  {
  }

  /** command_consume_arguments, from word `i` on; `j` is where it leaves the cursor. */
  method ConsumeArguments(argv: Words, i: nat) returns (c: Command, j: nat)
    requires i < |argv|
    ensures IsCut(argv, i, j)
    ensures c == Command(argv[i], argv[FirstArgument(argv, i)..j])
  {
    var isFirst := true;
    j := i;
    var name := argv[i];
    if IsCommand(name) {
      j, isFirst := j + 1, false;
    }
    var arity := Arity(name);
    var consumed := 0;
    ghost var first := j;
    var args: seq<string> := [];

    while j < |argv|
      invariant Underway(argv, i, j, consumed) && first == FirstArgument(argv, i)
      invariant isFirst <==> j == i
      invariant args == argv[first..j]
    {
      if IsCommand(argv[j]) && !TakesArgument(argv[j - 1]) {
        break;
      }
      var follows, option := !isFirst && !TakesArgument(argv[j - 1]), IsOption(argv[j]);
      if consumed == arity && arity > 0 {
        if follows {
          break;
        } else if !option {
          break;
        }
      }
      assert argv[first..j + 1] == argv[first..j] + [argv[j]];
      OneMoreWord(argv, i, j, consumed);
      args := args + [argv[j]];
      if consumed < arity {
        if !isFirst && TakesArgument(argv[j - 1]) {
        } else if option {
        } else {
          consumed := consumed + 1;
        }
      }
      j, isFirst := j + 1, false;
    }
    StopsAtCut(argv, i, j, consumed);
    c := Command(name, args);
  }

  /** The words a command was made of. */
  function WordsOf(c: Command): Words {
    if IsCommand(c.name) then [c.name] + c.args else c.args
  }

  function AllWords(cs: seq<Command>): Words {
    if cs == [] then [] else AllWords(cs[..|cs| - 1]) + WordsOf(cs[|cs| - 1])
  }

  /** Begins of the commands, and the end of the last. */
  ghost predicate AreCuts(argv: Words, cuts: seq<nat>) {
    && |cuts| > 0 && cuts[0] == 0
    && forall k :: 0 <= k < |cuts| - 1 ==> IsCut(argv, cuts[k], cuts[k + 1])
  }

  /** Word for word, a command is the part of the list between two cuts. */
  ghost predicate IsPart(argv: Words, c: Command, i: nat, j: nat) {
    i <= j <= |argv| && WordsOf(c) == argv[i..j]
  }

  /** The commands lie between the cuts and give back the first `i` words. */
  ghost predicate Splits(argv: Words, commands: seq<Command>, cuts: seq<nat>, i: nat) {
    && i <= |argv| && AllWords(commands) == argv[..i]
    && |cuts| == |commands| + 1 && AreCuts(argv, cuts) && cuts[|commands|] == i
    && forall k :: 0 <= k < |commands| ==> IsPart(argv, commands[k], cuts[k], cuts[k + 1])
  }

  lemma SplitsOneMore(argv: Words, commands: seq<Command>, cuts: seq<nat>, i: nat, c: Command, j: nat)
    requires Splits(argv, commands, cuts, i) && IsCut(argv, i, j) && IsPart(argv, c, i, j)
    ensures Splits(argv, commands + [c], cuts + [j], j)
  {
    WordsOneMore(argv, commands, i, c, j);
    CutsOneMore(argv, cuts, i, j);
  }

  lemma WordsOneMore(argv: Words, commands: seq<Command>, i: nat, c: Command, j: nat)
    requires i <= j <= |argv| && AllWords(commands) == argv[..i] && WordsOf(c) == argv[i..j]
    ensures AllWords(commands + [c]) == argv[..j]
  {
    assert (commands + [c])[..|commands|] == commands;
    assert argv[..j] == argv[..i] + argv[i..j];
  }

  lemma CutsOneMore(argv: Words, cuts: seq<nat>, i: nat, j: nat)
    requires AreCuts(argv, cuts) && cuts[|cuts| - 1] == i && IsCut(argv, i, j)
    ensures AreCuts(argv, cuts + [j])
  {
    var more := cuts + [j];
    forall k | 0 <= k < |more| - 1 ensures IsCut(argv, more[k], more[k + 1]) {
      if k < |cuts| - 1 {
        assert IsCut(argv, cuts[k], cuts[k + 1]);
      }
    }
  }

  /** commands_new: nothing is lost or reordered, and every cut is the right one. */
  method CommandsNew(argv: Words) returns (commands: seq<Command>, ghost cuts: seq<nat>)
    ensures AllWords(commands) == argv
    ensures Splits(argv, commands, cuts, |argv|)
  {
    commands, cuts := [], [0];
    var i := 0;
    while i < |argv|
      invariant Splits(argv, commands, cuts, i)
    {
      var c, j := ConsumeArguments(argv, i);
      assert WordsOf(c) == argv[i..j];
      SplitsOneMore(argv, commands, cuts, i, c, j);
      commands, cuts, i := commands + [c], cuts + [j], j;
    }
    assert argv[..i] == argv;
  }

  /** There is one way to cut an argument list. */
  lemma {:induction false} CutsUnique(argv: Words, a: seq<nat>, b: seq<nat>)
    requires AreCuts(argv, a) && a[|a| - 1] == |argv|
    requires AreCuts(argv, b) && b[|b| - 1] == |argv|
    ensures a == b
  {
    var n := if |a| < |b| then |a| else |b|;
    CutsAgree(argv, a, b, n);
    assert a[..n][n - 1] == b[..n][n - 1];
    if |a| > n {
      CutBeforeEnd(argv, a, n);
    } else if |b| > n {
      CutBeforeEnd(argv, b, n);
    }
    assert a == a[..n] && b == b[..n];
  }

  lemma CutBeforeEnd(argv: Words, cuts: seq<nat>, n: nat)
    requires AreCuts(argv, cuts) && 0 < n < |cuts|
    ensures cuts[n - 1] < |argv|
  {
    assert IsCut(argv, cuts[n - 1], cuts[n]);
  }

  lemma {:induction false} CutsAgree(argv: Words, a: seq<nat>, b: seq<nat>, n: nat)
    requires AreCuts(argv, a) && AreCuts(argv, b) && n <= |a| && n <= |b|
    ensures a[..n] == b[..n]
  {
    if n > 1 {
      CutsAgree(argv, a, b, n - 1);
      CutUnique(argv, a[n - 2], a[n - 1], b[n - 1]);
    }
  }

  /** Every command word that is not the argument of an option begins a command. */
  lemma {:induction false} CommandWordsBegin(argv: Words, cuts: seq<nat>, k: nat)
    requires AreCuts(argv, cuts) && k < cuts[|cuts| - 1] <= |argv| && StartsCommand(argv, k)
    ensures k in cuts
  {
    var init := cuts[..|cuts| - 1];
    if k < init[|init| - 1] {
      CommandWordsBegin(argv, init, k);
    }
  }

  // ---- with real words -------------------------------------------------------------------------------

  /** The words that are commands, by how many positionals they take. */
  lemma CommandNames(word: string)
    ensures IsCommand(word) <==>
              word in {"load", "save", "poke", "peek", "jump", "run", "help", "server", "relocate", "reset", "ready",
                       "ping", "bootloader", "benchmark", "identify", "kernal", "fill"}
    ensures Arity(word) == 2 <==> word in {"kernal", "fill"}
    ensures Arity(word) == 0 <==> word in {"reset", "ready", "ping", "bootloader", "benchmark", "identify"}
    ensures Arity(word) in {-1, 0, 1, 2}
  {
  }

  /** `load -a 0801 a.prg reset`: the option takes a word with it, and the positional ends the command. */
  lemma LoadThenReset(argv: Words)
    requires argv == ["load", "-a", "0801", "a.prg", "reset"]
    ensures IsCut(argv, 0, 4) && IsCut(argv, 4, 5)
  {
    CommandNames(argv[0]);
    assert IsOption(argv[1]) && TakesArgument(argv[1]) && !IsOption(argv[2]) && !IsOption(argv[3]);
    assert !TakesArgument(argv[0]) && !TakesArgument(argv[2]) && !TakesArgument(argv[3]);
    assert !IsCommand(argv[1]) && !IsCommand(argv[2]) && !IsCommand(argv[3]) && IsCommand(argv[4]);
    assert FirstArgument(argv, 0) == 1;
    assert Positionals(argv, 0, 1, 1) == 0 && Positionals(argv, 0, 1, 2) == 0;
    assert Positionals(argv, 0, 1, 3) == 0 && Positionals(argv, 0, 1, 4) == 1;
  }

  /** `-m load x`: here `load` is the argument of the option, and begins nothing. */
  lemma ArgumentIsNoCommand(argv: Words)
    requires argv == ["-m", "load", "x"]
    ensures IsCut(argv, 0, 3)
  {
    assert TakesArgument(argv[0]) && !IsCommand(argv[0]) && !IsCommand(argv[2]);
    assert Arity(argv[0]) == -1;
  }
}
