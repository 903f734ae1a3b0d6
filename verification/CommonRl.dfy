/** The text functions of `common_rl`, on strings of bytes: find, gsub, split, trim
    and the escaping of `mconvert`. */
module CommonRl {
  import opened Options

  type Byte = b: int | 0 <= b < 256
  type Bytes = seq<Byte>

  const NUL: Byte := 0
  const TAB: Byte := 9
  const NEWLINE: Byte := 10
  const BLANK: Byte := ' ' as int
  const DQUOTE: Byte := '\"' as int
  const HASH: Byte := '#' as int
  const PERCENT: Byte := '%' as int
  const QUOTE: Byte := '\'' as int
  const ZERO: Byte := '0' as int
  const EQUALS: Byte := '=' as int
  const BACKSLASH: Byte := '\\' as int

  /** pat stands in s at position i. */
  predicate MatchAt(s: Bytes, pat: Bytes, i: nat) {
    i + |pat| <= |s| && s[i..i + |pat|] == pat
  }

  /** `std::string::find` for a string: the first match at or after `from`, -1 for npos. */
  function Find(s: Bytes, pat: Bytes, from: nat): (r: int)
    ensures r == -1 || (from <= r && MatchAt(s, pat, r))
    ensures forall i: nat :: from <= i && (r == -1 || i < r) ==> !MatchAt(s, pat, i)
    decreases |s| - from
  {
    if from + |pat| > |s| then -1
    else if MatchAt(s, pat, from) then from
    else Find(s, pat, from + 1)
  }

  /** `std::string::find` for a character. */
  function IndexOf(s: Bytes, c: Byte, from: nat): (r: int)
    ensures r == -1 || (from <= r < |s| && s[r] == c)
    ensures forall i :: from <= i < |s| && (r == -1 || i < r) ==> s[i] != c
    decreases |s| - from
  {
    if from >= |s| then -1
    else if s[from] == c then from
    else IndexOf(s, c, from + 1)
  }

  lemma IndexIs(s: Bytes, c: Byte, from: nat, w: nat)
    requires from <= w < |s| && s[w] == c
    requires forall i :: from <= i < w ==> s[i] != c
    ensures IndexOf(s, c, from) == w
    decreases w - from
  {
  }

  lemma IndexNone(s: Bytes, c: Byte, from: nat)
    requires forall i :: from <= i < |s| ==> s[i] != c
    ensures IndexOf(s, c, from) == -1
    decreases |s| - from
  {
  }

  lemma Concat<T>(a: seq<T>, b: seq<T>, c: seq<T>)
    ensures (a + b) + c == a + (b + c)
  {
  }

  // ----- gsub -----

  /** One pass over s that puts `put` for pat wherever it meets it. */
  function Replace(s: Bytes, pat: Bytes, put: Bytes): Bytes
    requires pat != []
  {
    if s == [] then []
    else if MatchAt(s, pat, 0) then put + Replace(s[|pat|..], pat, put)
    else [s[0]] + Replace(s[1..], pat, put)
  }

  lemma {:induction false} NothingToReplace(s: Bytes, pat: Bytes, put: Bytes, from: nat)
    requires pat != [] && from <= |s|
    requires forall i: nat :: from <= i ==> !MatchAt(s, pat, i)
    ensures Replace(s[from..], pat, put) == s[from..]
    decreases |s| - from
  {
    if from < |s| {
      assert !MatchAt(s[from..], pat, 0) by {
        assert from + |pat| <= |s| ==> s[from..][..|pat|] == s[from..from + |pat|];
        assert !MatchAt(s, pat, from);
      }
      NothingToReplace(s, pat, put, from + 1);
      assert s[from..][1..] == s[from + 1..];
    }
  }

  lemma {:induction false} ReplaceFirst(s: Bytes, pat: Bytes, put: Bytes, from: nat, where: nat)
    requires pat != [] && from <= where && MatchAt(s, pat, where)
    requires forall i: nat :: from <= i < where ==> !MatchAt(s, pat, i)
    ensures Replace(s[from..], pat, put) == s[from..where] + put + Replace(s[where + |pat|..], pat, put)
    decreases where - from
  {
    var rest := s[from..];
    assert from < where ==> !MatchAt(rest, pat, 0) by {
      assert from + |pat| <= |s| ==> rest[..|pat|] == s[from..from + |pat|];
      assert from < where ==> !MatchAt(s, pat, from);
    }
    if from < where {
      ReplaceFirst(s, pat, put, from + 1, where);
      assert rest[1..] == s[from + 1..];
      var tail := Replace(s[where + |pat|..], pat, put);
      assert s[from..where] == [s[from]] + s[from + 1..where];
      Concat([s[from]], s[from + 1..where], put);
      Concat([s[from]], s[from + 1..where] + put, tail);
    } else {
      assert rest[..|pat|] == s[where..where + |pat|];
      assert MatchAt(rest, pat, 0);
      assert rest[|pat|..] == s[where + |pat|..];
      assert s[from..where] + put == put;
    }
  }

  /** None is `gsub_exception`. */
  method Gsub(target: Bytes, findme: Bytes, putme: Bytes) returns (r: Option<Bytes>)
    ensures r == if findme == [] || target == [] then None else Some(Replace(target, findme, putme))
  {
    if findme == [] || target == [] {
      return None;
    }
    var returnme: Bytes := [];
    var okayThrough := 0;
    var step := |findme|;
    var where := Find(target, findme, okayThrough);
    assert target[0..] == target;
    while where != -1
      invariant 0 <= okayThrough <= |target| && where == Find(target, findme, okayThrough)
      invariant Replace(target, findme, putme) == returnme + Replace(target[okayThrough..], findme, putme)
      decreases |target| - okayThrough
    {
      ReplaceFirst(target, findme, putme, okayThrough, where);
      Concat(returnme, target[okayThrough..where] + putme, Replace(target[where + step..], findme, putme));
      returnme := returnme + (target[okayThrough..where] + putme);
      okayThrough := where + step;
      where := Find(target, findme, okayThrough);
    }
    NothingToReplace(target, findme, putme, okayThrough);
    returnme := returnme + target[okayThrough..];
    return Some(returnme);
  }

  /** Every byte c replaced, every other one kept. */
  function Subst(s: Bytes, c: Byte, put: Bytes): Bytes {
    if s == [] then [] else (if s[0] == c then put else [s[0]]) + Subst(s[1..], c, put)
  }

  lemma {:induction false} SubstAppend(a: Bytes, b: Bytes, c: Byte, put: Bytes)
    ensures Subst(a + b, c, put) == Subst(a, c, put) + Subst(b, c, put)
  {
    if a == [] {
      assert a + b == b;
    } else {
      assert (a + b)[1..] == a[1..] + b;
      SubstAppend(a[1..], b, c, put);
      Concat(if a[0] == c then put else [a[0]], Subst(a[1..], c, put), Subst(b, c, put));
    }
  }

  /** With a one-character pattern, `gsub` is a map over the bytes. */
  lemma {:induction false} OneCharacterGsub(s: Bytes, c: Byte, put: Bytes)
    ensures Replace(s, [c], put) == Subst(s, c, put)
  {
    if s != [] {
      assert MatchAt(s, [c], 0) <==> s[0] == c by {
        assert s[0..1] == [s[0]];
      }
      OneCharacterGsub(s[1..], c, put);
    }
  }

  // ----- mconvert -----

  /** The four passes. */
  function FourPasses(s: Bytes): Bytes {
    var s1 := Replace(s, [BACKSLASH], [BACKSLASH, BACKSLASH]);
    var s2 := Replace(s1, [QUOTE], [BACKSLASH, QUOTE]);
    var s3 := Replace(s2, [DQUOTE], [BACKSLASH, DQUOTE]);
    Replace(s3, [NUL], [BACKSLASH, ZERO])
  }

  method MConvert(s: Bytes) returns (returnme: Bytes)
    ensures returnme == EscapeAll(s)
  {
    returnme := [];
    FourPassesAreOne(s);
    if |s| > 0 {
      var r := Gsub(s, [BACKSLASH], [BACKSLASH, BACKSLASH]);
      NotEmptied(s, BACKSLASH, [BACKSLASH, BACKSLASH]);
      NotEmptied(r.value, QUOTE, [BACKSLASH, QUOTE]);
      r := Gsub(r.value, [QUOTE], [BACKSLASH, QUOTE]);
      NotEmptied(r.value, DQUOTE, [BACKSLASH, DQUOTE]);
      r := Gsub(r.value, [DQUOTE], [BACKSLASH, DQUOTE]);
      r := Gsub(r.value, [NUL], [BACKSLASH, ZERO]);
      returnme := r.value;
    }
  }

  lemma NotEmptied(s: Bytes, c: Byte, put: Bytes)
    requires s != [] && put != []
    ensures Replace(s, [c], put) != []
  {
    OneCharacterGsub(s, c, put);
  }

  /** One pass: each byte on its own. */
  function Escape(b: Byte): Bytes {
    if b == BACKSLASH || b == QUOTE || b == DQUOTE then [BACKSLASH, b]
    else if b == NUL then [BACKSLASH, ZERO]
    else [b]
  }

  function EscapeAll(s: Bytes): Bytes {
    if s == [] then [] else Escape(s[0]) + EscapeAll(s[1..])
  }

  function FourSubsts(s: Bytes): Bytes {
    Subst(Subst(Subst(Subst(s, BACKSLASH, [BACKSLASH, BACKSLASH]), QUOTE, [BACKSLASH, QUOTE]),
                DQUOTE, [BACKSLASH, DQUOTE]), NUL, [BACKSLASH, ZERO])
  }

  lemma FourSubstsAppend(a: Bytes, b: Bytes)
    ensures FourSubsts(a + b) == FourSubsts(a) + FourSubsts(b)
  {
    SubstAppend(a, b, BACKSLASH, [BACKSLASH, BACKSLASH]);
    var a1, b1 := Subst(a, BACKSLASH, [BACKSLASH, BACKSLASH]), Subst(b, BACKSLASH, [BACKSLASH, BACKSLASH]);
    SubstAppend(a1, b1, QUOTE, [BACKSLASH, QUOTE]);
    var a2, b2 := Subst(a1, QUOTE, [BACKSLASH, QUOTE]), Subst(b1, QUOTE, [BACKSLASH, QUOTE]);
    SubstAppend(a2, b2, DQUOTE, [BACKSLASH, DQUOTE]);
    var a3, b3 := Subst(a2, DQUOTE, [BACKSLASH, DQUOTE]), Subst(b2, DQUOTE, [BACKSLASH, DQUOTE]);
    SubstAppend(a3, b3, NUL, [BACKSLASH, ZERO]);
  }

  lemma SubstOne(x: Byte, c: Byte, put: Bytes)
    ensures Subst([x], c, put) == if x == c then put else [x]
  {
  }

  lemma SubstTwo(x: Byte, y: Byte, c: Byte, put: Bytes)
    ensures Subst([x, y], c, put) == (if x == c then put else [x]) + (if y == c then put else [y])
  {
    assert [x, y] == [x] + [y];
    SubstAppend([x], [y], c, put);
    SubstOne(x, c, put);
    SubstOne(y, c, put);
  }

  /** Later passes do not touch what an earlier pass has put in. */
  lemma FourSubstsOne(x: Byte)
    ensures FourSubsts([x]) == Escape(x)
  {
    SubstOne(x, BACKSLASH, [BACKSLASH, BACKSLASH]);
    if x == BACKSLASH {
      SubstTwo(BACKSLASH, BACKSLASH, QUOTE, [BACKSLASH, QUOTE]);
      SubstTwo(BACKSLASH, BACKSLASH, DQUOTE, [BACKSLASH, DQUOTE]);
      SubstTwo(BACKSLASH, BACKSLASH, NUL, [BACKSLASH, ZERO]);
    } else if x == QUOTE {
      SubstOne(x, QUOTE, [BACKSLASH, QUOTE]);
      SubstTwo(BACKSLASH, QUOTE, DQUOTE, [BACKSLASH, DQUOTE]);
      SubstTwo(BACKSLASH, QUOTE, NUL, [BACKSLASH, ZERO]);
    } else {
      SubstOne(x, QUOTE, [BACKSLASH, QUOTE]);
      SubstOne(x, DQUOTE, [BACKSLASH, DQUOTE]);
      SubstTwo(BACKSLASH, DQUOTE, NUL, [BACKSLASH, ZERO]);
      SubstOne(x, NUL, [BACKSLASH, ZERO]);
    }
  }

  lemma {:induction false} FourSubstsAreEscapes(s: Bytes)
    ensures FourSubsts(s) == EscapeAll(s)
  {
    if s != [] {
      assert s == [s[0]] + s[1..];
      FourSubstsAppend([s[0]], s[1..]);
      FourSubstsOne(s[0]);
      FourSubstsAreEscapes(s[1..]);
    }
  }

  /** The four successive replacements escape byte by byte, on every string. */
  lemma FourPassesAreOne(s: Bytes)
    ensures FourPasses(s) == EscapeAll(s)
  {
    OneCharacterGsub(s, BACKSLASH, [BACKSLASH, BACKSLASH]);
    var s1 := Subst(s, BACKSLASH, [BACKSLASH, BACKSLASH]);
    OneCharacterGsub(s1, QUOTE, [BACKSLASH, QUOTE]);
    var s2 := Subst(s1, QUOTE, [BACKSLASH, QUOTE]);
    OneCharacterGsub(s2, DQUOTE, [BACKSLASH, DQUOTE]);
    OneCharacterGsub(Subst(s2, DQUOTE, [BACKSLASH, DQUOTE]), NUL, [BACKSLASH, ZERO]);
    FourSubstsAreEscapes(s);
  }

  /** Read with backslash as the escape sign, the text holds no quote of its own and
      does not end in the middle of an escape. */
  predicate Quotable(s: Bytes) {
    s == [] ||
    (if s[0] == BACKSLASH then |s| > 1 && Quotable(s[2..])
     else s[0] != QUOTE && s[0] != DQUOTE && s[0] != NUL && Quotable(s[1..]))
  }

  /** The escaped string can stand between quotes, whatever the string holds. */
  lemma {:induction false} EscapedIsQuotable(s: Bytes)
    ensures Quotable(EscapeAll(s)) && NUL !in EscapeAll(s)
  {
    if s != [] {
      EscapedIsQuotable(s[1..]);
      var e, rest := Escape(s[0]), EscapeAll(s[1..]);
      if |e| == 2 {
        assert (e + rest)[2..] == rest;
      } else {
        assert (e + rest)[1..] == rest;
      }
    }
  }

  /** A reader that takes the byte after a backslash as it is, and 0 as NUL. */
  function Unescape(s: Bytes): Bytes {
    if s == [] then []
    else if s[0] == BACKSLASH && |s| > 1 then [if s[1] == ZERO then NUL else s[1]] + Unescape(s[2..])
    else [s[0]] + Unescape(s[1..])
  }

  lemma {:induction false} UnescapeEscape(s: Bytes)
    ensures Unescape(EscapeAll(s)) == s
  {
    if s != [] {
      UnescapeEscape(s[1..]);
      var e, rest := Escape(s[0]), EscapeAll(s[1..]);
      if |e| == 2 {
        assert (e + rest)[2..] == rest;
      } else {
        assert (e + rest)[1..] == rest;
      }
    }
  }

  /** No two strings are escaped to the same one. */
  lemma EscapeIsInjective(s: Bytes, t: Bytes)
    requires FourPasses(s) == FourPasses(t)
    ensures s == t
  {
    FourPassesAreOne(s);
    FourPassesAreOne(t);
    UnescapeEscape(s);
    UnescapeEscape(t);
  }

  // ----- split -----

  /** The pieces between the tokens; an empty string has one empty piece. */
  function Pieces(s: Bytes, token: Byte): (parts: seq<Bytes>)
    ensures parts != []
  {
    var loc := IndexOf(s, token, 0);
    if loc == -1 then [s] else [s[..loc]] + Pieces(s[loc + 1..], token)
  }

  /** `split` itself yields no piece for an empty string. */
  function SplitAll(s: Bytes, token: Byte): seq<Bytes> {
    if s == [] then [] else Pieces(s, token)
  }

  lemma PiecesAfter(first: Bytes, rest: Bytes, token: Byte)
    requires token !in first
    ensures Pieces(first + [token] + rest, token) == [first] + Pieces(rest, token)
  {
    var s := first + [token] + rest;
    IndexIs(s, token, 0, |first|);
    assert s[..|first|] == first && s[|first| + 1..] == rest;
  }

  lemma FirstPiece(s: Bytes, token: Byte, from: nat, loc: nat)
    requires from <= |s| && IndexOf(s, token, from) == loc
    ensures s[from..] == s[from..loc] + [token] + s[loc + 1..] && token !in s[from..loc]
  {
  }

  lemma LastPiece(s: Bytes, token: Byte)
    requires token !in s
    ensures Pieces(s, token) == [s]
  {
  }

  method Split(source: Bytes, token: Byte) returns (returnme: seq<Bytes>)
    ensures returnme == SplitAll(source, token)
  {
    returnme := [];
    if |source| > 0 {
      ghost var goal := Pieces(source, token);
      ghost var rest := source;
      var processed := 0;
      var loc := IndexOf(source, token, processed);
      while loc != -1
        invariant 0 <= processed <= |source| && loc == IndexOf(source, token, processed)
        invariant rest == source[processed..] && goal == returnme + Pieces(rest, token)
        decreases |source| - processed
      {
        var piece := source[processed..loc];
        FirstPiece(source, token, processed, loc);
        rest := source[loc + 1..];
        PiecesAfter(piece, rest, token);
        Concat(returnme, [piece], Pieces(rest, token));
        returnme := returnme + [piece];
        processed := loc + 1;
        loc := IndexOf(source, token, processed);
      }
      LastPiece(rest, token);
      returnme := returnme + [source[processed..]];
    }
  }

  function JoinWith(parts: seq<Bytes>, token: Byte): Bytes {
    if parts == [] then []
    else if |parts| == 1 then parts[0]
    else parts[0] + [token] + JoinWith(parts[1..], token)
  }

  predicate TokenFree(parts: seq<Bytes>, token: Byte) {
    forall k :: 0 <= k < |parts| ==> token !in parts[k]
  }

  lemma {:induction false} JoinPieces(s: Bytes, token: Byte)
    ensures JoinWith(Pieces(s, token), token) == s && TokenFree(Pieces(s, token), token)
    decreases |s|
  {
    var loc := IndexOf(s, token, 0);
    if loc != -1 {
      JoinPieces(s[loc + 1..], token);
      var rest := Pieces(s[loc + 1..], token);
      assert ([s[..loc]] + rest)[1..] == rest;
      assert s == s[..loc] + [token] + s[loc + 1..];
    }
  }

  /** Joining what `split` yields gives the string back, and no piece holds a token. */
  lemma JoinSplit(s: Bytes, token: Byte)
    ensures JoinWith(SplitAll(s, token), token) == s && TokenFree(SplitAll(s, token), token)
  {
    JoinPieces(s, token);
  }

  lemma {:induction false} PiecesOfJoin(parts: seq<Bytes>, token: Byte)
    requires parts != [] && TokenFree(parts, token)
    ensures Pieces(JoinWith(parts, token), token) == parts
    decreases |parts|
  {
    if |parts| == 1 {
      IndexNone(parts[0], token, 0);
    } else {
      PiecesAfter(parts[0], JoinWith(parts[1..], token), token);
      PiecesOfJoin(parts[1..], token);
    }
  }

  /** Splitting what was joined gives the pieces back, except for the single empty
      piece, which `split` cannot tell from no piece. */
  lemma SplitJoin(parts: seq<Bytes>, token: Byte)
    requires TokenFree(parts, token)
    ensures SplitAll(JoinWith(parts, token), token) == parts <==> parts != [[]]
  {
    if parts != [] && parts != [[]] {
      PiecesOfJoin(parts, token);
      assert |parts| == 1 ==> parts[0] != [];
    }
  }

  // ----- trim -----

  predicate IsBlank(b: Byte) { b == TAB || b == NEWLINE || b == BLANK }

  predicate AllBlank(s: Bytes) { forall i :: 0 <= i < |s| ==> IsBlank(s[i]) }

  predicate IsTrimmed(s: Bytes) { s == [] || (!IsBlank(s[0]) && !IsBlank(s[|s| - 1])) }

  /** `find_first_not_of` and `find_last_not_of` for white space. */
  function FirstNotBlank(s: Bytes, from: nat): (r: int)
    ensures r == -1 || (from <= r < |s| && !IsBlank(s[r]))
    ensures forall i :: from <= i < |s| && (r == -1 || i < r) ==> IsBlank(s[i])
    decreases |s| - from
  {
    if from >= |s| then -1 else if !IsBlank(s[from]) then from else FirstNotBlank(s, from + 1)
  }

  function LastNotBlank(s: Bytes, end: nat): (r: int)
    requires end <= |s|
    ensures r == -1 || (0 <= r < end && !IsBlank(s[r]))
    ensures forall i :: 0 <= i < end && r < i ==> IsBlank(s[i])
  {
    if end == 0 then -1 else if !IsBlank(s[end - 1]) then end - 1 else LastNotBlank(s, end - 1)
  }

  function Trimmed(s: Bytes): Bytes {
    var first, last := FirstNotBlank(s, 0), LastNotBlank(s, |s|);
    if first == -1 || last < first then s else s[first..last + 1]
  }

  /** The padding goes, and only the padding. */
  lemma TrimPadded(before: Bytes, core: Bytes, after: Bytes)
    requires AllBlank(before) && AllBlank(after) && core != [] && IsTrimmed(core)
    ensures Trimmed(before + core + after) == core
  {
    var s := before + core + after;
    var first, last := FirstNotBlank(s, 0), LastNotBlank(s, |s|);
    assert s[|before|] == core[0] && s[|before| + |core| - 1] == core[|core| - 1];
    assert forall i :: 0 <= i < |before| ==> s[i] == before[i];
    assert forall i :: |before| + |core| <= i < |s| ==> s[i] == after[i - |before| - |core|];
    assert first == |before| && last == |before| + |core| - 1;
  }

  method Trim(source: Bytes) returns (s: Bytes)
    ensures s == Trimmed(source)
  {
    s := source;
    ghost var front: Bytes, back: Bytes := [], [];
    var where := FirstNotBlank(s, 0);
    if where != -1 {
      front, s := s[..where], s[where..];
    }
    where := LastNotBlank(s, |s|);
    if where != -1 {
      back, s := s[where + 1..], s[..where + 1];
      assert source == front + s + back;
      TrimPadded(front, s, back);
    }
  }

  /** `trim` removes the white space from both ends exactly if there is something
      else: a string of white space alone is returned as it is. */
  lemma TrimTrimsIff(s: Bytes)
    ensures IsTrimmed(Trimmed(s)) <==> s == [] || !AllBlank(s)
    ensures AllBlank(s) ==> Trimmed(s) == s
  {
  }
}
