/** The helpers of md5deep's main.c: the -o file-type letters, the per-option
    mode update, the matching-mode consistency check, and building the name
    of each file argument. The mode word is modelled as the set of its flags:
    main.c only ORs flags in and tests them. */
module Md5deep {
  import opened Wrappers

  /** The mode flags main.c sets or tests. */
  datatype ModeFlag =
    | Recursive | Estimate | Silent | Match | MatchNeg | DisplayHash | DisplaySize
    | Zero | Relative | Expert
    | Regular | Block | Character | Pipe | Symlink | Socket | Door

  type Mode = set<ModeFlag>

  /** The flags that select which file types are processed. */
  const FileTypeFlags: set<ModeFlag> := {Regular, Block, Character, Pipe, Symlink, Socket, Door}

  // ---------------------------------------------------------------------
  // setup_expert_mode
  // ---------------------------------------------------------------------

  /** The file-type flag a letter after -o selects; other letters select none. */
  function TypeLetterFlag(c: char): (f: Option<ModeFlag>)
    ensures f.Some? <==> c in "bcpflsd"
    ensures f.Some? ==> f.value in FileTypeFlags
  {
    match c
    case 'b' => Some(Block)
    case 'c' => Some(Character)
    case 'p' => Some(Pipe)
    case 'f' => Some(Regular)
    case 'l' => Some(Symlink)
    case 's' => Some(Socket)
    case 'd' => Some(Door)
    case _ => None
  }

  /** Each letter selects its own flag: no two letters share one. */
  lemma TypeLettersDistinct(c: char, d: char)
    requires TypeLetterFlag(c).Some? && TypeLetterFlag(c) == TypeLetterFlag(d)
    ensures c == d
  {
  }

  /** The flags the letters of `arg` select. */
  function TypeFlags(arg: string): set<ModeFlag>
  {
    set i | 0 <= i < |arg| && TypeLetterFlag(arg[i]).Some? :: TypeLetterFlag(arg[i]).value
  }

  /** A flag is selected exactly when some letter of `arg` selects it. */
  lemma TypeFlagsByLetter(arg: string, f: ModeFlag)
    ensures f in TypeFlags(arg) <==> exists c :: c in arg && TypeLetterFlag(c) == Some(f)
  {
  }

  /** Only which letters occur matters: not their order, not repetitions. */
  lemma TypeFlagsSameLetters(s: string, t: string)
    requires forall c :: c in s <==> c in t
    ensures TypeFlags(s) == TypeFlags(t)
  {
    forall f | true
      ensures f in TypeFlags(s) <==> f in TypeFlags(t)
    {
      TypeFlagsByLetter(s, f);
      TypeFlagsByLetter(t, f);
    }
  }

  /** Giving the same letters twice selects what giving them once does. */
  lemma TypeFlagsRepeat(arg: string)
    ensures TypeFlags(arg + arg) == TypeFlags(arg)
  {
    TypeFlagsSameLetters(arg + arg, arg);
  }

  lemma TypeFlagsSnoc(s: string, c: char)
    ensures TypeFlags(s + [c]) ==
      TypeFlags(s) + (if TypeLetterFlag(c).Some? then {TypeLetterFlag(c).value} else {})
  {
    var t := s + [c];
    assert forall i :: 0 <= i < |s| ==> t[i] == s[i];
    assert t[|s|] == c;
  }

  /** setup_expert_mode: OR into `mode` the flag of each letter of `arg`. */
  method SetupExpertMode(arg: string, mode: Mode) returns (r: Mode)
    ensures r == mode + TypeFlags(arg)
    ensures mode <= r && r - mode <= FileTypeFlags
  {
    r := mode;
    var i := 0;
    while i < |arg|
      invariant 0 <= i <= |arg|
      invariant r == mode + TypeFlags(arg[..i])
    {
      TypeFlagsSnoc(arg[..i], arg[i]);
      assert arg[..i + 1] == arg[..i] + [arg[i]];
      match arg[i] {
        case 'b' => r := r + {Block};
        case 'c' => r := r + {Character};
        case 'p' => r := r + {Pipe};
        case 'f' => r := r + {Regular};
        case 'l' => r := r + {Symlink};
        case 's' => r := r + {Socket};
        case 'd' => r := r + {Door};
        case _ =>
      }
      i := i + 1;
    }
    assert arg[..|arg|] == arg;
  }

  // ---------------------------------------------------------------------
  // One option of process_command_line, and check_matching_okay
  // ---------------------------------------------------------------------

  /** The state process_command_line builds: the mode and whether any
      matching file was loaded. */
  datatype CommandLine = CommandLine(mode: Mode, hashesLoaded: bool)

  /** The -m/-x branch: set the matching flag and note a successful load. */
  function MatchOption(cl: CommandLine, flag: ModeFlag, loaded: bool): CommandLine
  {
    CommandLine(cl.mode + {flag}, cl.hashesLoaded || loaded)
  }

  /** One option returned by getopt. `loaded` stands for what load_match_file
      returns for `optarg`. -h, -v and -V end the process with status 0, an
      unknown option with status 1; these are the Failure results. */
  function ApplyOption(cl: CommandLine, opt: char, optarg: string, loaded: bool): (r: Result<CommandLine, int>)
    ensures r.Failure? <==> opt !in "lomMxXzs0erbt"
    ensures r.Failure? ==> r.error == (if opt in "hvV" then 0 else 1)
    ensures r.Success? ==> cl.mode <= r.value.mode
    ensures r.Success? ==> (r.value.hashesLoaded <==> cl.hashesLoaded || (opt in "mMxX" && loaded))
    ensures opt == 'M' ==> r == Success(CommandLine(cl.mode + {DisplayHash, Match}, cl.hashesLoaded || loaded))
    ensures opt == 'X' ==> r == Success(CommandLine(cl.mode + {DisplayHash, MatchNeg}, cl.hashesLoaded || loaded))
    ensures opt == 'o' ==> r == Success(cl.(mode := cl.mode + {Expert} + TypeFlags(optarg)))
    ensures opt == 'm' ==> r == Success(CommandLine(cl.mode + {Match}, cl.hashesLoaded || loaded))
    ensures opt == 'x' ==> r == Success(CommandLine(cl.mode + {MatchNeg}, cl.hashesLoaded || loaded))
    ensures opt == 'l' ==> r == Success(cl.(mode := cl.mode + {Relative}))
    ensures opt == 'z' ==> r == Success(cl.(mode := cl.mode + {DisplaySize}))
    ensures opt == '0' ==> r == Success(cl.(mode := cl.mode + {Zero}))
    ensures opt == 's' ==> r == Success(cl.(mode := cl.mode + {Silent}))
    ensures opt == 'e' ==> r == Success(cl.(mode := cl.mode + {Estimate}))
    ensures opt == 'r' ==> r == Success(cl.(mode := cl.mode + {Recursive}))
    ensures opt in "bt" ==> r == Success(cl)
  {
    match opt
    case 'l' => Success(cl.(mode := cl.mode + {Relative}))
    case 'o' => Success(cl.(mode := cl.mode + {Expert} + TypeFlags(optarg)))
    // -M falls through into -m, -X into -x
    case 'M' =>
      assert cl.mode + {DisplayHash} + {Match} == cl.mode + {DisplayHash, Match};
      Success(MatchOption(cl.(mode := cl.mode + {DisplayHash}), Match, loaded))
    case 'm' => Success(MatchOption(cl, Match, loaded))
    case 'X' =>
      assert cl.mode + {DisplayHash} + {MatchNeg} == cl.mode + {DisplayHash, MatchNeg};
      Success(MatchOption(cl.(mode := cl.mode + {DisplayHash}), MatchNeg, loaded))
    case 'x' => Success(MatchOption(cl, MatchNeg, loaded))
    case 'z' => Success(cl.(mode := cl.mode + {DisplaySize}))
    case '0' => Success(cl.(mode := cl.mode + {Zero}))
    case 's' => Success(cl.(mode := cl.mode + {Silent}))
    case 'e' => Success(cl.(mode := cl.mode + {Estimate}))
    case 'r' => Success(cl.(mode := cl.mode + {Recursive}))
    case 'h' => Failure(0)
    case 'v' => Failure(0)
    case 'V' => Failure(0)
    case 'b' => Success(cl)
    case 't' => Success(cl)
    case _ => Failure(1)
  }

  /** Why check_matching_okay rejects a command line; either way the process
      ends with status 1. */
  datatype MatchingError = NoHashesLoaded | MatchAndNegativeMatch

  /** check_matching_okay: matching needs loaded hashes, and regular and
      negative matching exclude each other; the first test wins. */
  function CheckMatchingOkay(mode: Mode, hashesLoaded: bool): (r: Outcome<MatchingError>)
    ensures r == Fail(NoHashesLoaded) <==> (Match in mode || MatchNeg in mode) && !hashesLoaded
    ensures r == Fail(MatchAndNegativeMatch) <==> hashesLoaded && Match in mode && MatchNeg in mode
    ensures r == Pass <==>
      && (Match in mode || MatchNeg in mode ==> hashesLoaded)
      && !(Match in mode && MatchNeg in mode)
  {
    if (Match in mode || MatchNeg in mode) && !hashesLoaded then Fail(NoHashesLoaded)
    else if Match in mode && MatchNeg in mode then Fail(MatchAndNegativeMatch)
    else Pass
  }

  /** -m and -x together are rejected even when both loads succeed. */
  lemma MatchAndNegativeMatchRejected(cl: CommandLine, m: string, x: string)
    ensures var afterM := ApplyOption(cl, 'm', m, true).value;
      var afterX := ApplyOption(afterM, 'x', x, true).value;
      CheckMatchingOkay(afterX.mode, afterX.hashesLoaded) == Fail(MatchAndNegativeMatch)
  {
  }

  /** -M whose file fails to load, with nothing loaded before, is rejected
      for want of hashes. */
  lemma DisplayMatchWithoutHashesRejected(mode: Mode, m: string)
    ensures var afterM := ApplyOption(CommandLine(mode, false), 'M', m, false).value;
      CheckMatchingOkay(afterM.mode, afterM.hashesLoaded) == Fail(NoHashesLoaded)
  {
  }

  // ---------------------------------------------------------------------
  // is_absolute_path and generate_filename
  // ---------------------------------------------------------------------

  datatype Platform = Posix | Windows

  function DirSeparator(p: Platform): char
  {
    if p == Windows then '\\' else '/'
  }

  /** is_absolute_path: on Windows always false; elsewhere true exactly when
      the name starts with the directory separator (an empty C string starts
      with its terminator, so it is not absolute). */
  function IsAbsolutePath(p: Platform, fn: string): (r: bool)
    ensures p == Windows ==> !r
    ensures p == Posix ==> (r <==> |fn| > 0 && fn[0] == '/')
  {
    p == Posix && fn != [] && fn[0] == DirSeparator(p)
  }

  /** Linux's PATH_MAX: the size of the buffer generate_filename fills. */
  const PATH_MAX: nat := 4096

  const NUL: char := '\0'

  /** The C string a buffer holds: the characters before the first NUL, or
      None when the buffer has no NUL (it is not terminated). */
  function CString(buf: seq<char>): (r: Option<string>)
    ensures r.None? <==> NUL !in buf
    ensures r.Some? ==>
      && |r.value| < |buf| && buf[|r.value|] == NUL
      && r.value == buf[..|r.value|] && NUL !in r.value
  {
    if buf == [] then None
    else if buf[0] == NUL then Some([])
    else match CString(buf[1..])
      case None => None
      case Some(tail) => Some([buf[0]] + tail)
  }

  /** A buffer whose first NUL is at n holds the first n characters. */
  lemma CStringAt(buf: seq<char>, n: nat)
    requires n < |buf| && buf[n] == NUL && NUL !in buf[..n]
    ensures CString(buf) == Some(buf[..n])
  {
  }

  /** At most n - 1 characters of s: what a bounded copy into n bytes keeps. */
  function Truncated(s: string, n: nat): (t: string)
    requires n > 0
    ensures |t| < n && t <= s
    ensures |s| < n ==> t == s
  {
    if |s| < n then s else s[..n - 1]
  }

  /** strncpy(dst, src, n) as the C library defines it: the first n bytes
      become src padded with NULs; no NUL is written when src has n or more
      characters. */
  method Strncpy(dst: array<char>, src: string, n: nat)
    requires n <= dst.Length && NUL !in src
    modifies dst
    ensures forall k :: 0 <= k < n ==> dst[k] == if k < |src| then src[k] else NUL
    ensures forall k :: n <= k < dst.Length ==> dst[k] == old(dst[k])
  {
    var k := 0;
    while k < n
      invariant 0 <= k <= n
      invariant forall j :: 0 <= j < k ==> dst[j] == if j < |src| then src[j] else NUL
      invariant forall j :: k <= j < dst.Length ==> dst[j] == old(dst[j])
    {
      dst[k] := if k < |src| then src[k] else NUL;
      k := k + 1;
    }
  }

  /** snprintf(dst, n, "%s", s): at most n - 1 characters of s, then a NUL;
      the rest of dst is left alone. */
  method Snprintf(dst: array<char>, s: string, n: nat)
    requires 0 < n <= dst.Length && NUL !in s
    modifies dst
    ensures var t := Truncated(s, n);
      && (forall k :: 0 <= k < |t| ==> dst[k] == t[k])
      && dst[|t|] == NUL
      && (forall k :: |t| < k < dst.Length ==> dst[k] == old(dst[k]))
    ensures CString(dst[..]) == Some(Truncated(s, n))
  {
    var t := Truncated(s, n);
    var k := 0;
    while k < |t|
      invariant 0 <= k <= |t|
      invariant forall j :: 0 <= j < k ==> dst[j] == t[j]
      invariant forall j :: k <= j < dst.Length ==> dst[j] == old(dst[j])
    {
      dst[k] := t[k];
      k := k + 1;
    }
    dst[|t|] := NUL;
    assert dst[..][..|t|] == t;
    CStringAt(dst[..], |t|);
  }

  /** The bytes strncpy leaves in the first n bytes. */
  function StrncpyBytes(src: string, n: nat): (b: seq<char>)
    ensures |b| == n
  {
    seq(n, k requires 0 <= k < n => if k < |src| then src[k] else NUL)
  }

  /** A source shorter than the buffer is copied and terminated. */
  lemma StrncpyShortIsTerminated(src: string, n: nat)
    requires NUL !in src && |src| < n
    ensures CString(StrncpyBytes(src, n)) == Some(src)
  {
    var b := StrncpyBytes(src, n);
    assert b[..|src|] == src;
    CStringAt(b, |src|);
  }

  /** A source as long as the buffer or longer leaves no terminator at all. */
  lemma StrncpyLongIsUnterminated(src: string, n: nat)
    requires NUL !in src && |src| >= n
    ensures CString(StrncpyBytes(src, n)) == None
  {
  }

  /** Which branch of generate_filename produced the name. Resolved stands for
      realpath, which is not part of this model. */
  datatype NameSource = Copied | Joined | Resolved

  function NameBranch(mode: Mode, p: Platform, arg: string, cwd: Option<string>): NameSource
  {
    if Relative in mode || IsAbsolutePath(p, arg) then Copied
    else if p == Windows || cwd.None? then Resolved
    else Joined
  }

  /** In relative mode (-l), an argument of PATH_MAX letters 'a' takes the
      copy branch of generate_filename, and the copy leaves the buffer
      without a terminator. */
  lemma LongArgumentLeavesNameUnterminated()
    ensures var arg := seq(PATH_MAX, _ => 'a');
      && NameBranch({Relative}, Posix, arg, Some("/home")) == Copied
      && CString(StrncpyBytes(arg, PATH_MAX)) == None
  {
  }

  /** generate_filename as written: copy the argument with strncpy when the
      mode asks for relative names or the argument is absolute, otherwise
      join cwd, the separator and the argument with snprintf. */
  method GenerateFilenameAsWritten(mode: Mode, p: Platform, arg: string, fn: array<char>, cwd: Option<string>)
    returns (how: NameSource)
    requires fn.Length == PATH_MAX && NUL !in arg
    requires cwd.Some? ==> NUL !in cwd.value
    modifies fn
    ensures how == NameBranch(mode, p, arg, cwd)
    ensures how == Copied ==> fn[..] == StrncpyBytes(arg, PATH_MAX)
    ensures how == Joined ==>
      CString(fn[..]) == Some(Truncated(cwd.value + [DirSeparator(p)] + arg, PATH_MAX))
  {
    how := NameBranch(mode, p, arg, cwd);
    if how == Copied {
      Strncpy(fn, arg, PATH_MAX);
      assert fn[..] == StrncpyBytes(arg, PATH_MAX);
    } else if how == Joined {
      Snprintf(fn, cwd.value + [DirSeparator(p)] + arg, PATH_MAX);
    }
  }

  /** generate_filename with the copy bounded like the join: every branch
      modelled here leaves a terminated name of at most PATH_MAX - 1
      characters. */
  method GenerateFilename(mode: Mode, p: Platform, arg: string, fn: array<char>, cwd: Option<string>)
    returns (how: NameSource)
    requires fn.Length == PATH_MAX && NUL !in arg
    requires cwd.Some? ==> NUL !in cwd.value
    modifies fn
    ensures how == NameBranch(mode, p, arg, cwd)
    ensures how == Copied ==> CString(fn[..]) == Some(Truncated(arg, PATH_MAX))
    ensures how == Joined ==>
      CString(fn[..]) == Some(Truncated(cwd.value + [DirSeparator(p)] + arg, PATH_MAX))
  {
    how := NameBranch(mode, p, arg, cwd);
    if how == Copied {
      Snprintf(fn, arg, PATH_MAX);
    } else if how == Joined {
      Snprintf(fn, cwd.value + [DirSeparator(p)] + arg, PATH_MAX);
    }
  }
}
