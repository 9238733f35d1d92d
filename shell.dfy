/**
  The interactive Owl shell (cli/interactive_interpreter.cpp): the splitting of
  an input line into words and the dispatch of one command over the session
  state, the token stream `ts` and the tree pointer `ast`.

  The lexer and the parser are opaque collaborators, given to the shell as
  function values; what the printing, freeing and evaluating collaborators do
  is recorded as an Effect naming what they are called with.
*/
module Shell {

  import opened Wrappers

  /** A token of the external lexer. */
  type Token

  /** A syntax tree node of the external parser. */
  type Tree

  /**
    The value of the `ast` pointer: never assigned (the constructor leaves it
    indeterminate; the model takes it as distinct from null), null, or the
    address of a tree that is live or was freed.
  */
  datatype AstPtr = Uninitialised | Null | Node(tree: Tree, live: bool)

  /** The session fields of OwlShell. */
  datatype Session = Session(ts: seq<Token>, ast: AstPtr)

  /** What one command hands to the outside world. */
  datatype Effect =
    | Exit(status: int)             // exit(status)
    | Load(path: string)            // lexer.tokenize(path), then parser.start on its tokens
    | PrintTokens(tokens: seq<Token>)
    | PrintTree(root: AstPtr)
    | Execute(root: AstPtr)         // interpreter.Execute(root)
    | Free(root: AstPtr)            // freeTree(root)
    | MemoryUsage                   // interpreter.memoryUsage()
    | Help                          // showHelp()
    | Unknown(name: string)         // prints "? " and the name
    | Nothing

  // ---------------------------------------------------------------------------
  // tokenizeInput

  /** One loop step: a space closes the current word and opens an empty one; another character extends it. */
  function Extend(ws: seq<string>, c: char): (ws': seq<string>)
    requires |ws| > 0
    ensures |ws'| == |ws| + (if c == ' ' then 1 else 0)
  {
    if c == ' ' then ws + [""] else ws[..|ws| - 1] + [ws[|ws| - 1] + [c]]
  }
  /** The words the loop has built after reading s[..n]: the finished ones and the current one. */
  function WordsUpTo(s: string, n: nat): (ws: seq<string>)
    requires n <= |s|
    ensures |ws| > 0
  {
    if n == 0 then [""] else Extend(WordsUpTo(s, n - 1), s[n - 1])
  }
  /** The words of an input line split at every single ' '. */
  function Words(s: string): (ws: seq<string>)
    ensures |ws| > 0
  {
    WordsUpTo(s, |s|)
  }
  /** The words separated by one ' ' each. */
  function Join(ws: seq<string>): string
    decreases |ws|
  {
    if |ws| == 0 then []
    else if |ws| == 1 then ws[0]
    else Join(ws[..|ws| - 1]) + " " + ws[|ws| - 1]
  }
  predicate Spaceless(ws: seq<string>) {
    forall i :: 0 <= i < |ws| ==> ' ' !in ws[i]
  }
  /** A loop step appends its character to the joined line. */
  lemma JoinExtendSpace(ws: seq<string>)
    requires |ws| > 0
    ensures Join(ws + [""]) == Join(ws) + " "
  {
    var ws' := ws + [""];
    assert ws'[..|ws'| - 1] == ws;
  }
  lemma JoinExtendChar(ws: seq<string>, c: char)
    requires |ws| > 0
    ensures Join(ws[..|ws| - 1] + [ws[|ws| - 1] + [c]]) == Join(ws) + [c]
  {
    var init, last := ws[..|ws| - 1], ws[|ws| - 1];
    var ws' := init + [last + [c]];
    assert ws'[..|ws'| - 1] == init;
    if |ws| > 1 {
      assert Join(ws) == Join(init) + " " + last;
      assert Join(ws') == Join(init) + " " + (last + [c]);
    }
  }
  lemma JoinExtend(ws: seq<string>, c: char)
    requires |ws| > 0
    ensures Join(Extend(ws, c)) == Join(ws) + [c]
  {
    if c == ' ' {
      JoinExtendSpace(ws);
    } else {
      JoinExtendChar(ws, c);
    }
  }
  /** Joining the words of a line gives the line back. */
  lemma {:induction false} JoinWordsUpTo(s: string, n: nat)
    requires n <= |s|
    ensures Join(WordsUpTo(s, n)) == s[..n]
  {
    if n > 0 {
      JoinWordsUpTo(s, n - 1);
      JoinExtend(WordsUpTo(s, n - 1), s[n - 1]);
      assert s[..n] == s[..n - 1] + [s[n - 1]];
    }
  }
  lemma JoinWords(s: string)
    ensures Join(Words(s)) == s
  {
    JoinWordsUpTo(s, |s|);
    assert s[..|s|] == s;
  }
  /** No word contains ' '. */
  lemma {:induction false} WordsUpToSpaceless(s: string, n: nat)
    requires n <= |s|
    ensures Spaceless(WordsUpTo(s, n))
  {
    if n > 0 {
      WordsUpToSpaceless(s, n - 1);
      var ws := WordsUpTo(s, n - 1);
      if s[n - 1] != ' ' {
        assert ' ' !in ws[|ws| - 1] + [s[n - 1]];
      }
    }
  }
  lemma WordsSpaceless(s: string)
    ensures Spaceless(Words(s))
  {
    WordsUpToSpaceless(s, |s|);
  }

  /** There is one word more than there are spaces, so there is always a first word. */
  lemma {:induction false} WordsUpToCount(s: string, n: nat)
    requires n <= |s|
    ensures |WordsUpTo(s, n)| == multiset(s[..n])[' '] + 1
  {
    if n > 0 {
      WordsUpToCount(s, n - 1);
      assert s[..n] == s[..n - 1] + [s[n - 1]];
      assert multiset(s[..n]) == multiset(s[..n - 1]) + multiset{s[n - 1]};
    }
  }
  lemma WordsCount(s: string)
    ensures |Words(s)| == multiset(s)[' '] + 1
  {
    WordsUpToCount(s, |s|);
    assert s[..|s|] == s;
  }
  /** The words of a prefix depend on that prefix only. */
  lemma {:induction false} WordsUpToPrefix(s: string, t: string, n: nat)
    requires n <= |s| && n <= |t| && s[..n] == t[..n]
    ensures WordsUpTo(s, n) == WordsUpTo(t, n)
  {
    if n > 0 {
      assert s[n - 1] == s[..n][n - 1] == t[..n][n - 1] == t[n - 1];
      assert s[..n - 1] == s[..n][..n - 1];
      assert t[..n - 1] == t[..n][..n - 1];
      WordsUpToPrefix(s, t, n - 1);
    }
  }
  /** A word without spaces is its own only word. */
  lemma {:induction false} WordsUpToOfWord(w: string, n: nat)
    requires n <= |w| && ' ' !in w
    ensures WordsUpTo(w, n) == [w[..n]]
  {
    if n > 0 {
      WordsUpToOfWord(w, n - 1);
      assert w[n - 1] in w;
      assert w[..n] == w[..n - 1] + [w[n - 1]];
    }
  }
  lemma WordsOfWord(w: string)
    requires ' ' !in w
    ensures Words(w) == [w]
  {
    WordsUpToOfWord(w, |w|);
    assert w[..|w|] == w;
  }
  /** A loop step only touches the last word. */
  lemma ExtendAppend(wa: seq<string>, wb: seq<string>, c: char)
    requires |wb| > 0
    ensures Extend(wa + wb, c) == wa + Extend(wb, c)
  {
    if c != ' ' {
      var w := wa + wb;
      assert w[..|w| - 1] == wa + wb[..|wb| - 1];
    }
  }
  /** Past a space, the loop has built the words before the space followed by those after it. */
  lemma {:induction false} WordsUpToAfterSpace(a: string, b: string, k: nat)
    requires k <= |b|
    ensures WordsUpTo(a + " " + b, |a| + 1 + k) == Words(a) + WordsUpTo(b, k)
  {
    var s := a + " " + b;
    if k == 0 {
      assert s[|a|] == ' ';
      assert s[..|a|] == a[..|a|];
      WordsUpToPrefix(s, a, |a|);
    } else {
      WordsUpToAfterSpace(a, b, k - 1);
      assert WordsUpTo(s, |a| + 1 + k) == Extend(WordsUpTo(s, |a| + k), s[|a| + k]);
      assert s[|a| + k] == b[k - 1];
      ExtendAppend(Words(a), WordsUpTo(b, k - 1), b[k - 1]);
    }
  }
  /** A space splits a line into the words before it and the words after it. */
  lemma WordsAroundSpace(a: string, b: string)
    ensures Words(a + " " + b) == Words(a) + Words(b)
  {
    WordsUpToAfterSpace(a, b, |b|);
  }
  /** Splitting is the inverse of joining, for non-empty lists of space-free words. */
  lemma {:induction false} WordsJoin(ws: seq<string>)
    requires |ws| > 0 && Spaceless(ws)
    ensures Words(Join(ws)) == ws
    decreases |ws|
  {
    if |ws| == 1 {
      WordsOfWord(ws[0]);
    } else {
      var init, last := ws[..|ws| - 1], ws[|ws| - 1];
      WordsJoin(init);
      WordsOfWord(last);
      WordsAroundSpace(Join(init), last);
      assert ws == init + [last];
    }
  }

  /** The empty line has one, empty, word; a leading space yields an empty first word. */
  lemma LeadingSpaceWord(b: string)
    ensures Words("") == [""]
    ensures Words(" " + b) == [""] + Words(b)
  {
    WordsAroundSpace("", b);
    assert "" + " " + b == " " + b;
  }

  /** A trailing space yields an empty last word. */
  lemma TrailingSpaceWord(a: string)
    ensures Words(a + " ") == Words(a) + [""]
  {
    WordsAroundSpace(a, "");
    assert a + " " + "" == a + " ";
  }

  /** A doubled space yields an empty word between the two. */
  lemma DoubledSpaceWord(a: string, b: string)
    ensures Words(a + "  " + b) == Words(a) + [""] + Words(b)
  {
    var b' := " " + b;
    assert a + "  " + b == a + " " + b';
    WordsAroundSpace(a, b');
    LeadingSpaceWord(b);
  }

  /** OwlShell::tokenizeInput */
  method TokenizeInput(input: string) returns (words: seq<string>)
    ensures words == Words(input)
    ensures Join(words) == input && Spaceless(words)
    ensures |words| == multiset(input)[' '] + 1
  {
    words := [];
    var word := "";
    for i := 0 to |input|
      invariant words + [word] == WordsUpTo(input, i)
    {
      if input[i] == ' ' {
        words := words + [word];
        word := "";
      } else {
        word := word + [input[i]];
      }
    }
    words := words + [word];
    JoinWords(input);
    WordsSpaceless(input);
    WordsCount(input);
  }

  // ---------------------------------------------------------------------------
  // parseCommand

  /** The commands whose branch reads tokens[1] without checking that it exists. */
  predicate ReadsSecondWord(command: string) {
    command == "load" || command == "list" || command == "spy"
  }

  /** What parseCommand's indexing demands of its argument. */
  predicate WellFormed(tokens: seq<string>) {
    |tokens| > 0 && (ReadsSecondWord(tokens[0]) ==> |tokens| > 1)
  }

  predicate Known(command: string) {
    command == "quit" || command == "exit" || command == "load" || command == "list" ||
    command == "run" || command == "reset" || command == "spy" || command == "?" || command == "help"
  }

  /** The pointer parser.start returns: null when it produced no tree. */
  function PointerTo(root: Option<Tree>): AstPtr {
    match root
    case None => Null
    case Some(t) => Node(t, true)
  }

  /** freeTree(p) releases the tree p points to; the pointer value itself is unchanged. */
  function Released(p: AstPtr): (r: AstPtr)
    ensures r.Node? <==> p.Node?
    ensures p.Node? ==> r.tree == p.tree && !r.live
    ensures !p.Node? ==> r == p
  {
    match p
    case Node(t, _) => Node(t, false)
    case _ => p
  }

  /** One command: what it hands to the outside world, and the session it leaves. */
  function Dispatch(lexer: string -> seq<Token>, parser: seq<Token> -> Option<Tree>,
                    s: Session, tokens: seq<string>): (r: (Effect, Session))
    requires WellFormed(tokens)
    // only load and reset change the session
    ensures r.1 != s ==> tokens[0] == "load" || tokens[0] == "reset"
    ensures tokens[0] == "load" ==>
      r == (Load(tokens[1]), Session(lexer(tokens[1]), PointerTo(parser(lexer(tokens[1])))))
    ensures tokens[0] == "reset" ==> r == (Free(s.ast), Session([], Released(s.ast)))
    ensures r.0.Exit? <==> tokens[0] == "quit" || tokens[0] == "exit"
    ensures r.0.Exit? ==> r.0.status == 0
    ensures r.0.Unknown? <==> !Known(tokens[0])
    ensures r.0.Unknown? ==> r.0.name == tokens[0]
    ensures r.0.Execute? <==> tokens[0] == "run"
    ensures r.0.Execute? ==> r.0.root == s.ast
    ensures r.0.PrintTokens? <==> tokens[0] == "list" && tokens[1] == "tokens"
    ensures r.0.PrintTokens? ==> r.0.tokens == s.ts
    ensures r.0.PrintTree? <==> tokens[0] == "list" && tokens[1] == "ast" && s.ast != Null
    ensures r.0.PrintTree? ==> r.0.root == s.ast
    ensures r.0.MemoryUsage? <==> tokens[0] == "spy" && tokens[1] == "memory"
    ensures r.0.Help? <==> tokens[0] == "?" || tokens[0] == "help"
    ensures r.0.Load? <==> tokens[0] == "load"
    ensures r.0.Free? <==> tokens[0] == "reset"
    ensures r.0 == Nothing <==>
      (tokens[0] == "list" && tokens[1] != "tokens" && (tokens[1] != "ast" || s.ast == Null)) ||
      (tokens[0] == "spy" && tokens[1] != "memory")
  {
    var command := tokens[0];
    if command == "quit" || command == "exit" then
      (Exit(0), s)
    else if command == "load" then
      var ts := lexer(tokens[1]);
      (Load(tokens[1]), Session(ts, PointerTo(parser(ts))))
    else if command == "list" then
      if tokens[1] == "tokens" then (PrintTokens(s.ts), s)
      else if tokens[1] == "ast" && s.ast != Null then (PrintTree(s.ast), s)
      else (Nothing, s)
    else if command == "run" then
      (Execute(s.ast), s)
    else if command == "reset" then
      (Free(s.ast), Session([], Released(s.ast)))
    else if command == "spy" then
      if tokens[1] == "memory" then (MemoryUsage, s) else (Nothing, s)
    else if command == "?" || command == "help" then
      (Help, s)
    else
      (Unknown(command), s)
  }

  /** Only the first word, and the second for load, list and spy, decide a command. */
  lemma DispatchIgnoresExtraWords(lexer: string -> seq<Token>, parser: seq<Token> -> Option<Tree>,
                                  s: Session, tokens: seq<string>)
    requires WellFormed(tokens)
    ensures var n := if ReadsSecondWord(tokens[0]) then 2 else 1;
      Dispatch(lexer, parser, s, tokens) == Dispatch(lexer, parser, s, tokens[..n])
  {
  }

  /**
    reset frees the tree but keeps the pointer: a following `list ast` prints, and
    a following `run` executes, the freed tree.
  */
  lemma ResetLeavesDanglingPointer(lexer: string -> seq<Token>, parser: seq<Token> -> Option<Tree>,
                                   s: Session, path: string, t: Tree)
    requires parser(lexer(path)) == Some(t)
    ensures var loaded := Dispatch(lexer, parser, s, ["load", path]).1;
      var reset := Dispatch(lexer, parser, loaded, ["reset"]);
      reset.0 == Free(Node(t, true)) && reset.1 == Session([], Node(t, false)) &&
      Dispatch(lexer, parser, reset.1, ["list", "ast"]).0 == PrintTree(Node(t, false)) &&
      Dispatch(lexer, parser, reset.1, ["run"]).0 == Execute(Node(t, false))
  {
  }

  /**
    A shell that has not loaded anything executes, and on `list ast` prints, its
    never-initialised pointer: there is no "no script loaded" check. (That
    `list ast` prints it rests on taking the indeterminate pointer as non-null.)
  */
  lemma RunBeforeLoadUsesUninitialisedPointer(lexer: string -> seq<Token>, parser: seq<Token> -> Option<Tree>)
    ensures Dispatch(lexer, parser, Session([], Uninitialised), ["run"]).0 == Execute(Uninitialised)
    ensures Dispatch(lexer, parser, Session([], Uninitialised), ["list", "ast"]).0 == PrintTree(Uninitialised)
  {
  }

  /** Two space-free words: one space between them separates them, two spaces add an empty word. */
  lemma TwoWords(c: string, w: string)
    requires ' ' !in c && ' ' !in w
    ensures Words(c + " " + w) == [c, w]
    ensures Words(c + "  " + w) == [c, "", w]
  {
    WordsOfWord(c);
    WordsOfWord(w);
    WordsAroundSpace(c, w);
    DoubledSpaceWord(c, w);
  }

  /**
    So a doubled space changes the command: `list tokens` prints the tokens,
    `list  tokens` sees an empty second word and does nothing.
  */
  lemma DoubledSpaceChangesCommand(lexer: string -> seq<Token>, parser: seq<Token> -> Option<Tree>, s: Session)
    ensures Dispatch(lexer, parser, s, ["list", "tokens"]).0 == PrintTokens(s.ts)
    ensures Words("list  tokens") == ["list", "", "tokens"]
    ensures Dispatch(lexer, parser, s, ["list", "", "tokens"]).0 == Nothing
  {
    TwoWords("list", "tokens");
    assert "list" + "  " + "tokens" == "list  tokens";
  }

  /** OwlShell: the session fields and the collaborators that produce them. */
  class OwlShell {
    const lexer: string -> seq<Token>
    const parser: seq<Token> -> Option<Tree>
    var ts: seq<Token>
    var ast: AstPtr

    ghost function State(): Session
      reads this
    {
      Session(ts, ast)
    }

    /** The C++ constructor is empty: ts is an empty vector, ast is never assigned. */
    constructor (lexer: string -> seq<Token>, parser: seq<Token> -> Option<Tree>)
      ensures this.lexer == lexer && this.parser == parser
      ensures ts == [] && ast == Uninitialised
    {
      this.lexer := lexer;
      this.parser := parser;
      ts := [];
      ast := Uninitialised;
    }

    /** OwlShell::parseCommand */
    method ParseCommand(tokens: seq<string>) returns (effect: Effect)
      requires WellFormed(tokens)
      modifies this
      ensures (effect, State()) == Dispatch(lexer, parser, old(State()), tokens)
    {
      if tokens[0] == "quit" || tokens[0] == "exit" {
        effect := Exit(0);
      } else if tokens[0] == "load" {
        ts := lexer(tokens[1]);
        ast := PointerTo(parser(ts));
        effect := Load(tokens[1]);
      } else if tokens[0] == "list" {
        if tokens[1] == "tokens" {
          effect := PrintTokens(ts);
        } else if tokens[1] == "ast" {
          effect := if !ast.Null? then PrintTree(ast) else Nothing;
        } else {
          effect := Nothing;
        }
      } else if tokens[0] == "run" {
        effect := Execute(ast);
      } else if tokens[0] == "reset" {
        ts := [];
        effect := Free(ast);
        ast := Released(ast);
      } else if tokens[0] == "spy" {
        effect := if tokens[1] == "memory" then MemoryUsage else Nothing;
      } else if tokens[0] == "?" || tokens[0] == "help" {
        effect := Help;
      } else {
        effect := Unknown(tokens[0]);
      }
    }
  }
}
