/**
  The batch entry point of the Owl tool (cli/owl_cli.cpp): from the argument
  vector, choose between the usage text, a verbose run and a quiet run.
  argv[0] is the program name, so argc is |argv|.
*/
module OwlCli {

  import opened Wrappers

  /** What main does. */
  datatype Mode =
    | Usage                                          // showUsage()
    | Verbose(flag: string, pathArg: Option<string>) // runVerbose(argv[1], argv[2])
    | Quiet(path: string)                            // runQuiet(argv[1])

  datatype Outcome = Outcome(mode: Mode, status: int)

  /** s[i] of a NUL-terminated C string: past the last character it reads the terminator. */
  function CharAt(s: string, i: nat): char {
    if i < |s| then s[i] else '\0'
  }

  /** argv[i] for 0 <= i <= argc: argv[argc] is the null pointer, None here. */
  function Arg(argv: seq<string>, i: nat): Option<string>
    requires i <= |argv|
  {
    if i < |argv| then Some(argv[i]) else None
  }

  /** `argv[1][0] == '-' && argv[1][1] == 'v'`, short-circuited as in C. */
  predicate IsVerboseFlag(arg: string)
    ensures IsVerboseFlag(arg) <==> |arg| >= 2 && arg[..2] == "-v"
  {
    CharAt(arg, 0) == '-' && CharAt(arg, 1) == 'v'
  }

  /** main(argc, argv), without the random seeding and the runs themselves. */
  function SelectMode(argv: seq<string>): (r: Outcome)
    ensures r.status == 0
    ensures r.mode.Usage? <==> |argv| < 2
    ensures r.mode.Verbose? <==> |argv| >= 2 && |argv[1]| >= 2 && argv[1][..2] == "-v"
    ensures r.mode.Verbose? ==>
      r.mode.flag == argv[1] && r.mode.pathArg == (if |argv| > 2 then Some(argv[2]) else None)
    ensures r.mode.Quiet? ==> r.mode.path == argv[1]
  {
    if |argv| < 2 then
      Outcome(Usage, 0)
    else if IsVerboseFlag(argv[1]) then
      Outcome(Verbose(argv[1], Arg(argv, 2)), 0)
    else
      Outcome(Quiet(argv[1]), 0)
  }

  /** The flag is forwarded verbatim: nothing after "-v" is checked. */
  lemma VerboseFlagNotValidated(prog: string, rest: string, path: string)
    ensures SelectMode([prog, "-v" + rest, path]).mode == Verbose("-v" + rest, Some(path))
  {
    assert ("-v" + rest)[..2] == "-v";
  }

  /** With a flag and no path, argv[2] is still read: it is the null pointer. */
  lemma VerboseWithoutPathReadsNull(prog: string)
    ensures SelectMode([prog, "-v"]).mode == Verbose("-v", None)
  {
  }

  /** "-" and "-x" are not flags: they are taken as the path, and what follows is ignored. */
  lemma OtherDashArgumentsArePaths(prog: string, path: string)
    ensures SelectMode([prog, "-"]).mode == Quiet("-")
    ensures SelectMode([prog, "-x", path]).mode == Quiet("-x")
  {
  }

  /** On the quiet path only argv[1] matters. */
  lemma QuietIgnoresLaterArguments(argv: seq<string>, more: seq<string>)
    requires |argv| >= 2 && !IsVerboseFlag(argv[1])
    ensures SelectMode(argv + more) == SelectMode(argv[..2]) == Outcome(Quiet(argv[1]), 0)
  {
    assert (argv + more)[1] == argv[1];
  }
}
