/** `conf_reader`: reading a file line by line and merging the command line into
    what was read. */
module ConfReaders {
  import opened Options
  import opened CommonRl
  import opened ConfLine

  /** The multimap: the values of each name in the order in which they are stored. */
  type Values = map<Bytes, seq<Bytes>>

  ghost predicate WellFormed(m: Values) { forall k :: k in m ==> m[k] != [] }

  function ValuesOf(m: Values, k: Bytes): seq<Bytes> { if k in m then m[k] else [] }

  function Insert(m: Values, k: Bytes, v: Bytes): Values { m[k := ValuesOf(m, k) + [v]] }

  // 16 * 1024 - 1: what `getline` stores beside the terminating NUL
  const LIMIT: nat := 16383

  // "__exec_name" and "configfile"
  const EXEC_NAME: Bytes := [95, 95, 101, 120, 101, 99, 95, 110, 97, 109, 101]
  const CONFIG_FILE: Bytes := [99, 111, 110, 102, 105, 103, 102, 105, 108, 101]

  // ----- The lines of a file -----

  /** `istream::getline`: the line, the rest of the stream, and its eof and fail bits. */
  function GetLine(rest: Bytes, eof: bool): (r: (Bytes, Bytes, bool, bool))
    ensures r.3 || |r.1| < |rest| || (r.2 && !eof)
    ensures |r.1| <= |rest| && (eof ==> r.2)
  {
    var end := IndexOf(rest, NEWLINE, 0);
    if eof then ([], rest, true, true)
    else if end == -1 && |rest| <= LIMIT then (rest, [], true, rest == [])
    else if end == -1 || end > LIMIT then (rest[..LIMIT], rest[LIMIT..], false, true)
    else (rest[..end], rest[end + 1..], false, false)
  }

  function Feed(m: Values, p: Parsed): Values {
    if p.Entry? then Insert(m, p.name, p.value) else m
  }

  /** What the lines from the current position on add to m. */
  function Load(m: Values, rest: Bytes, eof: bool, stray: Byte): Values
    decreases |rest|, !eof
  {
    var (line, after, ended, failed) := GetLine(rest, eof);
    var p := Parse(line, stray);
    if p.Aborted? || failed then Feed(m, p) else Load(Feed(m, p), after, ended, stray)
  }

  lemma LoadOne(m: Values, rest: Bytes, eof: bool, stray: Byte, got: (Bytes, Bytes, bool, bool), p: Parsed)
    requires got == GetLine(rest, eof) && p == Parse(got.0, stray)
    ensures Load(m, rest, eof, stray) ==
            if p.Aborted? || got.3 then Feed(m, p) else Load(Feed(m, p), got.1, got.2, stray)
  {
  }

  /** The values and layouts of lines that were written, in order. */
  function InsertAll(m: Values, lines: seq<Line>): Values
    decreases |lines|
  {
    if lines == [] then m else InsertAll(Insert(m, lines[0].name, lines[0].value), lines[1..])
  }

  function FileText(lines: seq<Line>): Bytes {
    if lines == [] then [] else Text(lines[0]) + [NEWLINE] + FileText(lines[1..])
  }

  /** A line that can be written and is neither misread nor an include. */
  predicate Setting(l: Line) { Writable(l) && !Glued(l) && l.name != INCLUDE && |Text(l)| <= LIMIT }

  ghost predicate AllWritable(lines: seq<Line>) {
    forall k :: 0 <= k < |lines| ==> Setting(lines[k])
  }

  lemma LineIsGot(line: Bytes, rest: Bytes)
    requires NEWLINE !in line && |line| <= LIMIT
    ensures GetLine(line + [NEWLINE] + rest, false) == (line, rest, false, false)
  {
    var s := line + [NEWLINE] + rest;
    IndexIs(s, NEWLINE, 0, |line|);
    assert s[..|line|] == line && s[|line| + 1..] == rest;
  }

  lemma LoadLine(m: Values, line: Bytes, rest: Bytes, stray: Byte)
    requires NEWLINE !in line && |line| <= LIMIT && Parse(line, stray).Entry?
    ensures var p := Parse(line, stray);
            Load(m, line + [NEWLINE] + rest, false, stray) == Load(Insert(m, p.name, p.value), rest, false, stray)
  {
    LineIsGot(line, rest);
  }

  /** A line that says nothing is skipped. */
  lemma SkipLine(m: Values, line: Bytes, rest: Bytes, stray: Byte)
    requires NEWLINE !in line && |line| <= LIMIT && Parse(line, stray) == Nothing
    ensures Load(m, line + [NEWLINE] + rest, false, stray) == Load(m, rest, false, stray)
  {
    LineIsGot(line, rest);
    LoadOne(m, line + [NEWLINE] + rest, false, stray, (line, rest, false, false), Nothing);
  }

  /** Lines of comment do not matter. */
  lemma CommentLineSkipped(m: Values, comment: Bytes, rest: Bytes, stray: Byte)
    requires comment != [] && comment[0] == HASH && NEWLINE !in comment && |comment| <= LIMIT
    requires stray != BACKSLASH
    ensures Load(m, comment + [NEWLINE] + rest, false, stray) == Load(m, rest, false, stray)
  {
    CommentLine(comment, stray);
    SkipLine(m, comment, rest, stray);
  }

  /** The last line counts even if nothing ends it. */
  lemma LastLine(m: Values, line: Bytes, stray: Byte)
    requires line != [] && NEWLINE !in line && |line| <= LIMIT
    ensures Load(m, line, false, stray) == Feed(m, Parse(line, stray))
  {
    IndexNone(line, NEWLINE, 0);
    var p := Parse(line, stray);
    LoadOne(m, line, false, stray, (line, [], true, false), p);
    LoadOne(Feed(m, p), [], true, stray, ([], [], true, true), Nothing);
  }

  /** A line that is too long ends the reading after its first bytes. */
  lemma OverlongLine(m: Values, first: Bytes, more: Bytes, stray: Byte)
    requires |first| == LIMIT && NEWLINE !in first && more != [] && more[0] != NEWLINE
    ensures Load(m, first + more, false, stray) == Feed(m, Parse(first, stray))
  {
    var s := first + more;
    assert s[LIMIT] == more[0];
    assert s[..LIMIT] == first;
    var end := IndexOf(s, NEWLINE, 0);
    assert end == -1 || end > LIMIT by {
      assert forall i :: 0 <= i < LIMIT ==> s[i] == first[i];
    }
    LoadOne(m, s, false, stray, GetLine(s, false), Parse(first, stray));
  }

  lemma LoadText(m: Values, l: Line, rest: Bytes, stray: Byte)
    requires Setting(l)
    ensures Load(m, Text(l) + [NEWLINE] + rest, false, stray) == Load(Insert(m, l.name, l.value), rest, false, stray)
  {
    BodyIsEscaped(l);
    ParseText(l, stray);
    LoadLine(m, Text(l), rest, stray);
  }

  lemma WritableTail(lines: seq<Line>)
    requires AllWritable(lines) && lines != []
    ensures Setting(lines[0]) && AllWritable(lines[1..])
  {
    assert forall k :: 0 <= k < |lines| - 1 ==> lines[1..][k] == lines[k + 1];
  }

  lemma FileTextStep(lines: seq<Line>, rest: Bytes)
    requires lines != []
    ensures FileText(lines) + rest == Text(lines[0]) + [NEWLINE] + (FileText(lines[1..]) + rest)
  {
    Concat(Text(lines[0]) + [NEWLINE], FileText(lines[1..]), rest);
  }

  /** Every line of a written file is stored, in order, whatever follows. */
  lemma {:induction false} LoadWritten(m: Values, lines: seq<Line>, rest: Bytes, stray: Byte)
    requires AllWritable(lines)
    ensures Load(m, FileText(lines) + rest, false, stray) == Load(InsertAll(m, lines), rest, false, stray)
    decreases |lines|
  {
    if lines == [] {
      assert FileText(lines) + rest == rest;
    } else {
      WritableTail(lines);
      FileTextStep(lines, rest);
      LoadText(m, lines[0], FileText(lines[1..]) + rest, stray);
      LoadWritten(Insert(m, lines[0].name, lines[0].value), lines[1..], rest, stray);
    }
  }

  lemma NothingMore(m: Values, stray: Byte)
    ensures Load(m, [], false, stray) == m
  {
    assert Parse([], stray) == Nothing;
  }

  /** Reading back a written file gives its names and values, in order. */
  lemma FileRoundTrip(m: Values, lines: seq<Line>, stray: Byte)
    requires AllWritable(lines)
    ensures Load(m, FileText(lines), false, stray) == InsertAll(m, lines)
  {
    LoadWritten(m, lines, [], stray);
    assert FileText(lines) + [] == FileText(lines);
    NothingMore(InsertAll(m, lines), stray);
  }

  /** The same if nothing ends the last line. */
  lemma OpenFileRoundTrip(m: Values, lines: seq<Line>, last: Line, stray: Byte)
    requires AllWritable(lines) && Setting(last)
    ensures Load(m, FileText(lines) + Text(last), false, stray)
            == Insert(InsertAll(m, lines), last.name, last.value)
  {
    LoadWritten(m, lines, Text(last), stray);
    BodyIsEscaped(last);
    ParseText(last, stray);
    LastLine(InsertAll(m, lines), Text(last), stray);
  }

  /** A line of white space alone ends the reading: what follows it is lost. */
  lemma BlankLineLosesTheRest(m: Values, lines: seq<Line>, blanks: Bytes, rest: Bytes, stray: Byte)
    requires AllWritable(lines) && blanks != [] && OnlyTabsAndBlanks(blanks) && |blanks| <= LIMIT
    ensures Load(m, FileText(lines) + (blanks + [NEWLINE] + rest), false, stray) == InsertAll(m, lines)
  {
    LoadWritten(m, lines, blanks + [NEWLINE] + rest, stray);
    LineIsGot(blanks, rest);
    IndexNone(blanks, NUL, 0);
    CommentIs(blanks, 0, |blanks|, stray);
    AbortsIff(blanks, stray);
  }

  lemma {:induction false} InsertedValues(m: Values, lines: seq<Line>, k: Bytes)
    ensures ValuesOf(InsertAll(m, lines), k) == ValuesOf(m, k) + ValuesNamed(lines, k)
    decreases |lines|
  {
    if lines != [] {
      var next := Insert(m, lines[0].name, lines[0].value);
      InsertedValues(next, lines[1..], k);
      if lines[0].name == k {
        Concat(ValuesOf(m, k), [lines[0].value], ValuesNamed(lines[1..], k));
      }
    }
  }

  /** The values written for k, in order. */
  function ValuesNamed(lines: seq<Line>, k: Bytes): seq<Bytes> {
    if lines == [] then []
    else (if lines[0].name == k then [lines[0].value] else []) + ValuesNamed(lines[1..], k)
  }

  // ----- The command line -----

  /** The text before the first equals sign, and after it. */
  function ArgName(arg: Bytes): Bytes {
    var at := IndexOf(arg, EQUALS, 0);
    if at == -1 then arg else arg[..at]
  }

  function ArgValue(arg: Bytes): Bytes {
    var at := IndexOf(arg, EQUALS, 0);
    if at == -1 then [] else arg[at + 1..]
  }

  /** "name=value" is taken apart exactly, whatever equals signs the value holds. */
  lemma ArgTakenApart(name: Bytes, value: Bytes)
    requires EQUALS !in name
    ensures ArgName(name + [EQUALS] + value) == name && ArgValue(name + [EQUALS] + value) == value
    ensures ArgName(name) == name && ArgValue(name) == []
  {
    var arg := name + [EQUALS] + value;
    IndexIs(arg, EQUALS, 0, |name|);
    assert arg[..|name|] == name && arg[|name| + 1..] == value;
    IndexNone(name, EQUALS, 0);
  }

  function Arguments(argv: seq<Bytes>): (args: seq<Bytes>)
    ensures |args| == |argv|
  {
    if argv == [] then [] else [EXEC_NAME + [EQUALS] + argv[0]] + argv[1..]
  }

  /** The multimap of the first arguments; an empty argument stores nothing. */
  function Stored(args: seq<Bytes>): Values {
    if args == [] then map[]
    else
      var m, arg := Stored(args[..|args| - 1]), args[|args| - 1];
      if arg == [] then m else Insert(m, ArgName(arg), ArgValue(arg))
  }

  function FileName(args: seq<Bytes>, given: Bytes): Bytes {
    if args == [] then given
    else
      var arg := args[|args| - 1];
      if arg != [] && ArgName(arg) == CONFIG_FILE then ArgValue(arg)
      else FileName(args[..|args| - 1], given)
  }

  lemma StoredStep(args: seq<Bytes>, i: nat, given: Bytes)
    requires i < |args|
    ensures var m, arg := Stored(args[..i]), args[i];
            Stored(args[..i + 1]) == if arg == [] then m else Insert(m, ArgName(arg), ArgValue(arg))
    ensures FileName(args[..i + 1], given) ==
            if args[i] != [] && ArgName(args[i]) == CONFIG_FILE then ArgValue(args[i]) else FileName(args[..i], given)
  {
    assert args[..i + 1][..i] == args[..i];
  }

  predicate Names(args: seq<Bytes>, k: Bytes, i: nat)
    requires i < |args|
  {
    args[i] != [] && ArgName(args[i]) == k
  }

  lemma NamesInFront(args: seq<Bytes>, front: seq<Bytes>, k: Bytes)
    requires args != [] && front == args[..|args| - 1]
    ensures forall j :: 0 <= j < |front| ==> Names(front, k, j) == Names(args, k, j)
  {
  }

  /** args[i] is the last argument for k. */
  predicate IsLast(args: seq<Bytes>, k: Bytes, i: nat)
    requires i < |args|
  {
    Names(args, k, i) && forall j :: i < j < |args| ==> !Names(args, k, j)
  }

  lemma {:induction false} LastIsStoredLast(args: seq<Bytes>, k: Bytes, i: nat)
    requires i < |args| && IsLast(args, k, i)
    ensures k in Stored(args) && Stored(args)[k] != []
    ensures Stored(args)[k][|Stored(args)[k]| - 1] == ArgValue(args[i])
  {
    var front := args[..|args| - 1];
    if i < |front| {
      NamesInFront(args, front, k);
      assert !Names(args, k, |args| - 1);
      LastIsStoredLast(front, k, i);
    }
  }

  lemma {:induction false} UnnamedIsNotStored(args: seq<Bytes>, k: Bytes)
    requires forall i :: 0 <= i < |args| ==> !Names(args, k, i)
    ensures k !in Stored(args)
  {
    if args != [] {
      var front := args[..|args| - 1];
      NamesInFront(args, front, k);
      assert !Names(args, k, |args| - 1);
      UnnamedIsNotStored(front, k);
    }
  }

  lemma {:induction false} StoredIsWellFormed(args: seq<Bytes>)
    ensures WellFormed(Stored(args))
  {
    if args != [] {
      StoredIsWellFormed(args[..|args| - 1]);
    }
  }

  /** The first of the old values is overridden by the last of the new ones. */
  function Override(ours: seq<Bytes>, theirs: seq<Bytes>): seq<Bytes>
    requires theirs != []
  {
    [theirs[|theirs| - 1]] + (if ours == [] then [] else ours[1..])
  }

  function Merged(file: Values, args: Values): Values
    requires forall k :: k in args ==> args[k] != []
  {
    map k | k in file.Keys + args.Keys :: if k in args then Override(ValuesOf(file, k), args[k]) else file[k]
  }

  /** The name k of a multimap in the middle of the merge. */
  ghost predicate MergedAt(now: Values, file: Values, args: Values, k: Bytes, todo: set<Bytes>)
    requires WellFormed(args)
  {
    && (k in now <==> k in file || (k in args && k !in todo))
    && (k in now ==> now[k] == if k in args && k !in todo then Override(ValuesOf(file, k), args[k]) else file[k])
  }

  lemma MergeDone(now: Values, file: Values, args: Values)
    requires WellFormed(args) && forall k :: MergedAt(now, file, args, k, {})
    ensures now == Merged(file, args)
  {
    var after := Merged(file, args);
    forall k ensures k in now <==> k in after {
      assert MergedAt(now, file, args, k, {});
    }
    forall k | k in now ensures now[k] == after[k] {
      assert MergedAt(now, file, args, k, {});
    }
  }

  /** What was read from the file before the merge. */
  function FromFile(filename: Bytes, files: Bytes -> Option<Bytes>, stray: Byte): Values {
    if filename == [] then map[]
    else match files(filename) case None => map[] case Some(text) => Load(map[], text, false, stray)
  }

  lemma {:induction false} LoadIsWellFormed(m: Values, rest: Bytes, eof: bool, stray: Byte)
    requires WellFormed(m)
    ensures WellFormed(Load(m, rest, eof, stray))
    decreases |rest|, !eof
  {
    var (line, after, ended, failed) := GetLine(rest, eof);
    var p := Parse(line, stray);
    if !p.Aborted? && !failed {
      LoadIsWellFormed(if p.Entry? then Insert(m, p.name, p.value) else m, after, ended, stray);
    }
  }

  /** After the merge a name given on the command line has its last value there as
      its first value, and the file's later values follow. */
  lemma CommandLineDominates(args: seq<Bytes>, file: Values, k: Bytes, i: nat)
    requires WellFormed(file) && i < |args| && IsLast(args, k, i)
    ensures WellFormed(Stored(args)) &&
      ValuesOf(Merged(file, Stored(args)), k) == [ArgValue(args[i])] + if k in file then file[k][1..] else []
  {
    StoredIsWellFormed(args);
    LastIsStoredLast(args, k, i);
  }

  /** Every other name keeps the file's values. */
  lemma OtherNamesAreKept(args: seq<Bytes>, file: Values, k: Bytes)
    requires WellFormed(file) && forall i :: 0 <= i < |args| ==> !Names(args, k, i)
    ensures WellFormed(Stored(args)) && ValuesOf(Merged(file, Stored(args)), k) == ValuesOf(file, k)
  {
    StoredIsWellFormed(args);
    UnnamedIsNotStored(args, k);
  }

  lemma {:induction false} InsertAllIsWellFormed(m: Values, lines: seq<Line>)
    requires WellFormed(m)
    ensures WellFormed(InsertAll(m, lines))
    decreases |lines|
  {
    if lines != [] {
      InsertAllIsWellFormed(Insert(m, lines[0].name, lines[0].value), lines[1..]);
    }
  }

  /** A written file read back under a command line: the last argument for k comes
      first, and all values but the first that were written for k follow in order. */
  lemma FileAndCommandLine(args: seq<Bytes>, lines: seq<Line>, k: Bytes, i: nat, stray: Byte)
    requires AllWritable(lines) && i < |args| && IsLast(args, k, i)
    ensures WellFormed(Stored(args)) &&
      var written := ValuesNamed(lines, k);
      ValuesOf(Merged(Load(map[], FileText(lines), false, stray), Stored(args)), k)
        == [ArgValue(args[i])] + if written == [] then [] else written[1..]
  {
    FileRoundTrip(map[], lines, stray);
    InsertAllIsWellFormed(map[], lines);
    InsertedValues(map[], lines, k);
    var file := InsertAll(map[], lines);
    assert ValuesOf(file, k) == ValuesNamed(lines, k);
    CommandLineDominates(args, file, k, i);
  }

  /** What `operator[]` returns. */
  function FirstOf(m: Values, k: Bytes): Bytes { if k in m && m[k] != [] then m[k][0] else [] }

  /** After the command line has been read, `operator[]` gives the value of the last
      argument for the name; without one, what it would have given on the file; and
      the empty string for a name that neither has. */
  lemma FirstAfterMerge(args: seq<Bytes>, file: Values, k: Bytes)
    requires WellFormed(file)
    ensures WellFormed(Stored(args))
    ensures forall i :: 0 <= i < |args| && IsLast(args, k, i) ==>
              FirstOf(Merged(file, Stored(args)), k) == ArgValue(args[i])
    ensures (forall i :: 0 <= i < |args| ==> !Names(args, k, i)) ==>
              FirstOf(Merged(file, Stored(args)), k) == FirstOf(file, k)
  {
    StoredIsWellFormed(args);
    forall i | 0 <= i < |args| && IsLast(args, k, i)
      ensures FirstOf(Merged(file, Stored(args)), k) == ArgValue(args[i])
    {
      LastIsStoredLast(args, k, i);
    }
    if forall i :: 0 <= i < |args| ==> !Names(args, k, i) {
      UnnamedIsNotStored(args, k);
    }
  }

  lemma JoinStep(value: Bytes, t: seq<Bytes>, l: nat)
    requires l < |t|
    ensures value + JoinWith(t[l..], EQUALS) ==
            (if l < |t| - 1 then value + t[l] + [EQUALS] else value + t[l]) + JoinWith(t[l + 1..], EQUALS)
  {
    assert t[l..][1..] == t[l + 1..];
    Concat(value + t[l], [EQUALS], JoinWith(t[l + 1..], EQUALS));
    Concat(value, t[l] + [EQUALS], JoinWith(t[l + 1..], EQUALS));
  }

  // ----- in terms of what the program was started with -----

  /** argv[i] is the last argument, not the program's name, that gives k. */
  predicate LastGiven(argv: seq<Bytes>, k: Bytes, i: nat) {
    && 0 < i < |argv| && argv[i] != [] && ArgName(argv[i]) == k
    && forall j :: i < j < |argv| ==> argv[j] == [] || ArgName(argv[j]) != k
  }

  predicate NotGiven(argv: seq<Bytes>, k: Bytes) {
    forall j :: 0 < j < |argv| ==> argv[j] == [] || ArgName(argv[j]) != k
  }

  lemma LastGivenIsLast(argv: seq<Bytes>, k: Bytes, i: nat)
    requires LastGiven(argv, k, i)
    ensures IsLast(Arguments(argv), k, i) && Arguments(argv)[i] == argv[i]
  {
    assert forall j :: 0 < j < |argv| ==> Arguments(argv)[j] == argv[j];
  }

  lemma ProgramName(argv: seq<Bytes>)
    requires argv != []
    ensures ArgName(Arguments(argv)[0]) == EXEC_NAME && ArgValue(Arguments(argv)[0]) == argv[0]
    ensures Arguments(argv)[0] != []
  {
    assert EQUALS !in EXEC_NAME;
    ArgTakenApart(EXEC_NAME, argv[0]);
  }

  /** After `read(argc, argv, ..)`, `operator[]` gives the value of the last argument
      for the name. */
  lemma GivenWins(argv: seq<Bytes>, file: Values, k: Bytes, i: nat)
    requires WellFormed(file) && LastGiven(argv, k, i)
    ensures WellFormed(Stored(Arguments(argv)))
    ensures FirstOf(Merged(file, Stored(Arguments(argv))), k) == ArgValue(argv[i])
  {
    FirstAfterMerge(Arguments(argv), file, k);
    LastGivenIsLast(argv, k, i);
  }

  lemma NotGivenIsNotNamed(argv: seq<Bytes>, k: Bytes)
    requires NotGiven(argv, k)
    ensures forall j :: 0 < j < |argv| ==> !Names(Arguments(argv), k, j)
  {
    assert forall j :: 0 < j < |argv| ==> Arguments(argv)[j] == argv[j];
  }

  /** The program's own name is the value of "__exec_name", unless an argument gives
      that. */
  lemma ProgramNameIsStored(argv: seq<Bytes>, file: Values)
    requires WellFormed(file) && argv != [] && NotGiven(argv, EXEC_NAME)
    ensures WellFormed(Stored(Arguments(argv)))
    ensures FirstOf(Merged(file, Stored(Arguments(argv))), EXEC_NAME) == argv[0]
  {
    FirstAfterMerge(Arguments(argv), file, EXEC_NAME);
    NotGivenIsNotNamed(argv, EXEC_NAME);
    ProgramName(argv);
    assert IsLast(Arguments(argv), EXEC_NAME, 0);
  }

  /** Any other name that no argument gives has what the file gives. */
  lemma FileDecides(argv: seq<Bytes>, file: Values, k: Bytes)
    requires WellFormed(file) && NotGiven(argv, k) && (argv == [] || k != EXEC_NAME)
    ensures WellFormed(Stored(Arguments(argv)))
    ensures ValuesOf(Merged(file, Stored(Arguments(argv))), k) == ValuesOf(file, k)
  {
    NotGivenIsNotNamed(argv, k);
    if argv != [] {
      ProgramName(argv);
    }
    OtherNamesAreKept(Arguments(argv), file, k);
  }

  lemma {:induction false} FileNameIsLast(args: seq<Bytes>, given: Bytes, i: nat)
    requires i < |args| && IsLast(args, CONFIG_FILE, i)
    ensures FileName(args, given) == ArgValue(args[i])
  {
    var n := |args| - 1;
    if i < n {
      assert !Names(args, CONFIG_FILE, n);
      NamesInFront(args, args[..n], CONFIG_FILE);
      FileNameIsLast(args[..n], given, i);
    }
  }

  lemma {:induction false} FileNameIsGiven(args: seq<Bytes>, given: Bytes)
    requires forall i :: 0 <= i < |args| ==> !Names(args, CONFIG_FILE, i)
    ensures FileName(args, given) == given
  {
    if args != [] {
      var n := |args| - 1;
      assert !Names(args, CONFIG_FILE, n);
      NamesInFront(args, args[..n], CONFIG_FILE);
      FileNameIsGiven(args[..n], given);
    }
  }

  /** Which file is read: that of the last "configfile=" argument, without one the
      given one. */
  lemma FileNameAfterArguments(argv: seq<Bytes>, given: Bytes)
    ensures forall i: nat :: LastGiven(argv, CONFIG_FILE, i) ==> FileName(Arguments(argv), given) == ArgValue(argv[i])
    ensures NotGiven(argv, CONFIG_FILE) ==> FileName(Arguments(argv), given) == given
  {
    forall i: nat | LastGiven(argv, CONFIG_FILE, i) ensures FileName(Arguments(argv), given) == ArgValue(argv[i]) {
      LastGivenIsLast(argv, CONFIG_FILE, i);
      FileNameIsLast(Arguments(argv), given, i);
    }
    if NotGiven(argv, CONFIG_FILE) {
      NotGivenIsNotNamed(argv, CONFIG_FILE);
      if argv != [] {
        ProgramName(argv);
      }
      FileNameIsGiven(Arguments(argv), given);
    }
  }

  class ConfReader {
    var values: Values
    var filename: Bytes

    constructor ()
      ensures values == map[] && filename == []
    {
      values, filename := map[], [];
    }

    method Clear()
      modifies this`values
      ensures values == map[]
    {
      values := map[];
    }

    /** `read(filename, clear)`; a file that cannot be opened, and a line that aborts,
        leave what was read so far. */
    method Read(name: Bytes, clear: bool, files: Bytes -> Option<Bytes>, stray: Byte)
      modifies this
      ensures filename == if name != [] then name else old(filename)
      ensures values ==
        if filename == [] || files(filename).None? then old(values)
        else Load(if clear then map[] else old(values), files(filename).value, false, stray)
    {
      if name != [] {
        filename := name;
      }
      if filename != [] {
        var text := files(filename);
        if text.None? {
          return;
        }
        if clear {
          values := map[];
        }
        ghost var base := values;
        var rest, eof, failed, aborted := text.value, false, false, false;
        while !failed
          invariant failed ==> values == Load(base, text.value, false, stray)
          invariant !failed ==> Load(values, rest, eof, stray) == Load(base, text.value, false, stray)
          invariant filename == if name != [] then name else old(filename)
          decreases !failed, |rest|, !eof
        {
          rest, eof, failed, aborted := TakeLine(rest, eof, stray);
          if aborted {
            return;
          }
        }
      }
    }

    /** One line of the file; an exception aborts the reading. */
    method TakeLine(rest: Bytes, eof: bool, stray: Byte)
        returns (after: Bytes, ended: bool, failed: bool, aborted: bool)
      modifies this`values
      ensures Load(old(values), rest, eof, stray)
              == if failed || aborted then values else Load(values, after, ended, stray)
      ensures failed || |after| < |rest| || (ended && !eof)
      ensures |after| <= |rest| && (eof ==> ended)
    {
      var got := GetLine(rest, eof);
      after, ended, failed := got.1, got.2, got.3;
      var p := ParseLine(got.0, stray);
      LoadOne(values, rest, eof, stray, got, p);
      aborted := p.Aborted?;
      if p.Entry? {
        values := Insert(values, p.name, p.value);
      }
    }

    /** The value behind the first equals sign, put together again from the pieces. */
    static method Assemble(t: seq<Bytes>) returns (value: Bytes)
      requires t != []
      ensures value == JoinWith(t[1..], EQUALS)
    {
      value := [];
      var l := 1;
      while l < |t|
        invariant 1 <= l <= |t|
        invariant JoinWith(t[1..], EQUALS) == value + JoinWith(t[l..], EQUALS)
      {
        JoinStep(value, t, l);
        value := value + t[l];
        if l < |t| - 1 {
          value := value + [EQUALS];
        }
        l := l + 1;
      }
    }

    /** The pair for one argument.  The source also trims name and value, but into
        results that it throws away. */
    static method TakeApart(instring: Bytes) returns (newval: Option<(Bytes, Bytes)>)
      ensures newval == if instring == [] then None else Some((ArgName(instring), ArgValue(instring)))
    {
      var t := Split(instring, EQUALS);
      if |t| == 0 {
        return None;
      }
      TakenApart(instring);
      var value := Assemble(t);
      return Some((t[0], value));
    }

    /** The first loop of `read(argc, argv, filename)`. */
    method CollectArguments(argv: seq<Bytes>, given: Bytes) returns (cvars: Values)
      modifies this`filename
      ensures cvars == Stored(Arguments(argv)) && filename == FileName(Arguments(argv), given)
    {
      filename := given;
      cvars := map[];
      ghost var args := Arguments(argv);
      var i := 0;
      while i < |argv|
        invariant i <= |argv|
        invariant cvars == Stored(args[..i]) && filename == FileName(args[..i], given)
      {
        var instring := argv[i];
        if i == 0 {
          instring := EXEC_NAME + [EQUALS] + instring;
        }
        assert instring == args[i];
        StoredStep(args, i, given);
        var newval := TakeApart(instring);
        if newval.Some? {
          cvars := Insert(cvars, newval.value.0, newval.value.1);
          if newval.value.0 == CONFIG_FILE {
            filename := newval.value.1;
          }
        }
        i := i + 1;
      }
      assert args[..i] == args;
    }

    /** `read(argc, argv, filename)`. */
    method ReadArguments(argv: seq<Bytes>, given: Bytes, files: Bytes -> Option<Bytes>, stray: Byte)
      modifies this
      ensures var args := Arguments(argv);
        WellFormed(Stored(args)) && filename == FileName(args, given) &&
        values == Merged(FromFile(filename, files, stray), Stored(args))
    {
      Clear();
      var cvars := CollectArguments(argv, given);
      StoredIsWellFormed(Arguments(argv));
      Read(filename, false, files, stray);
      if filename != [] && files(filename).Some? {
        LoadIsWellFormed(map[], files(filename).value, false, stray);
      }
      Merge(cvars);
    }

    method MergeName(k: Bytes, news: seq<Bytes>)
      requires news != [] && (k in values ==> values[k] != [])
      modifies this`values
      ensures values == old(values)[k := Override(ValuesOf(old(values), k), news)]
    {
      ghost var before := values;
      var i := 0;
      while i < |news|
        invariant i <= |news|
        invariant values == if i == 0 then before else before[k := Override(ValuesOf(before, k), news[..i])]
      {
        if k in values {
          values := values[k := [news[i]] + values[k][1..]];
        } else {
          values := values[k := [news[i]]];
        }
        assert values[k] == Override(ValuesOf(before, k), news[..i + 1]);
        assert values == before[k := values[k]];
        i := i + 1;
      }
      assert news[..i] == news;
    }

    /** The loop over the command line's multimap.  The source takes the names in
        order; here they come in any order. */
    method Merge(cvars: Values)
      requires WellFormed(values) && WellFormed(cvars)
      modifies this`values
      ensures values == Merged(old(values), cvars)
    {
      var file := values;
      var todo := cvars.Keys;
      while todo != {}
        invariant todo <= cvars.Keys
        invariant forall k :: MergedAt(values, file, cvars, k, todo)
        decreases |todo|
      {
        var k :| k in todo;
        ghost var before := values;
        assert MergedAt(before, file, cvars, k, todo);
        MergeName(k, cvars[k]);
        forall j ensures MergedAt(values, file, cvars, j, todo - {k}) {
          assert MergedAt(before, file, cvars, j, todo);
        }
        todo := todo - {k};
      }
      MergeDone(values, file, cvars);
    }

    /** `all`: every value of a name, in order. */
    method All(key: Bytes) returns (returnme: seq<Bytes>)
      ensures returnme == ValuesOf(values, key)
    {
      returnme := [];
      if key in values {
        var i := 0;
        while i < |values[key]|
          invariant i <= |values[key]| && returnme == values[key][..i]
        {
          returnme := returnme + [values[key][i]];
          i := i + 1;
        }
      }
    }

    /** `operator[]`: the first value, or the empty string. */
    method First(key: Bytes) returns (returnme: Bytes)
      requires WellFormed(values)
      ensures returnme == FirstOf(values, key)
    {
      returnme := [];
      if key in values {
        returnme := values[key][0];
      }
    }
  }

  /** `split` on equals signs gives the name and, joined again, the value. */
  lemma TakenApart(arg: Bytes)
    requires arg != []
    ensures var t := SplitAll(arg, EQUALS);
            t != [] && t[0] == ArgName(arg) && JoinWith(t[1..], EQUALS) == ArgValue(arg)
  {
    var at := IndexOf(arg, EQUALS, 0);
    if at != -1 {
      JoinPieces(arg[at + 1..], EQUALS);
    }
  }
}
