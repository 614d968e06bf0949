/** Splitting a command line in place into NUL-terminated arguments. */
module CommandLine {
  import Bits

  const NUL := '\0'

  predicate IsSpace(c: char) {
    c == ' ' || c == '\t' || c == '\n' || c == '\U{0B}' || c == '\U{0C}' || c == '\r'
  }

  predicate IsQuote(c: char) {
    c == '"' || c == '\''
  }

  /** White space is a blank, a tab, a line feed, a vertical tab, a form feed or a carriage return; quotes are single
      or double. */
  lemma SpacesAndQuotes(c: char)
    ensures IsSpace(c) <==> c in " \t\n\U{0B}\U{0C}\r"
    ensures IsQuote(c) <==> c in "\"'"
  {
    var spaces := " \t\n\U{0B}\U{0C}\r";
    assert spaces[0] == ' ' && spaces[1] == '\t' && spaces[2] == '\n' && spaces[3] == '\U{0B}';
    assert spaces[4] == '\U{0C}' && spaces[5] == '\r';
    var quotes := "\"'";
    assert quotes[0] == '"' && quotes[1] == '\'';
  }

  predicate NoNul(s: string) {
    forall i :: 0 <= i < |s| ==> s[i] != NUL
  }

  // ---------- Where the arguments of a line stand ----------

  /** An argument occupies the positions from start up to end. */
  datatype Slice = Slice(start: nat, end: nat)

  function SkipSpace(s: string, p: nat): (r: nat)
    requires p <= |s|
    ensures p <= r <= |s| && (r < |s| ==> !IsSpace(s[r]))
    decreases |s| - p
  {
    if p < |s| && IsSpace(s[p]) then SkipSpace(s, p + 1) else p
  }

  predicate Ends(c: char, quote: char) {
    if quote != NUL then c == quote else IsSpace(c)
  }

  /** The closing quote, or without a quote the next white space, or the end of the line. */
  function EndOf(s: string, p: nat, quote: char): (r: nat)
    requires p <= |s|
    ensures p <= r <= |s|
    decreases |s| - p
  {
    if p < |s| && !Ends(s[p], quote) then EndOf(s, p + 1, quote) else p
  }

  function Min(a: nat, b: nat): nat {
    if a < b then a else b
  }

  /** The first `max` arguments from position p on. */
  function Slices(s: string, p: nat, max: nat): seq<Slice>
    requires p <= |s|
    decreases max
  {
    var q := SkipSpace(s, p);
    if max == 0 || q == |s| then []
    else
      var quote := if IsQuote(s[q]) then s[q] else NUL;
      var start := if IsQuote(s[q]) then q + 1 else q;
      var end := EndOf(s, start, quote);
      [Slice(start, end)] + Slices(s, Min(end + 1, |s|), max - 1)
  }

  /** Slices in order, one terminator apart at least, from position p on. */
  predicate Disjoint(slices: seq<Slice>, p: nat, n: nat) {
    && (forall k :: 0 <= k < |slices| ==> p <= slices[k].start <= slices[k].end <= n)
    && forall j, k :: 0 <= j < k < |slices| ==> slices[j].end < slices[k].start
  }

  lemma {:induction false} SlicesDisjoint(s: string, p: nat, max: nat)
    requires p <= |s|
    ensures Disjoint(Slices(s, p, max), p, |s|) && |Slices(s, p, max)| <= max
    decreases max
  {
    var q := SkipSpace(s, p);
    if max != 0 && q < |s| {
      var first := Slices(s, p, max)[0];
      var next := Min(first.end + 1, |s|);
      SlicesDisjoint(s, next, max - 1);
      if first.end == |s| {
        assert SkipSpace(s, |s|) == |s|;
      }
    }
  }

  /** The buffer with a terminator at the end of every slice. */
  function Marked(b: seq<char>, slices: seq<Slice>): (r: seq<char>)
    requires forall k :: 0 <= k < |slices| ==> slices[k].end < |b|
    ensures |r| == |b|
  {
    if slices == [] then b
    else Marked(b, slices[..|slices| - 1])[slices[|slices| - 1].end := NUL]
  }

  // ---------- The splitter ----------

  /** The C string at position p. */
  function CString(b: seq<char>, p: nat): string
    decreases |b| - p
  {
    if p < |b| && b[p] != NUL then [b[p]] + CString(b, p + 1) else []
  }

  ghost predicate IsCString(b: seq<char>, s: string) {
    |s| < |b| && b[..|s|] == s && NoNul(s) && b[|s|] == NUL
  }

  /** Skips to the next argument. */
  method SkipBlanks(buf: array<char>, p0: nat, ghost s: string) returns (p: nat)
    requires p0 <= |s| < buf.Length && NoNul(s) && buf[|s|] == NUL && buf[p0..|s|] == s[p0..]
    ensures p == SkipSpace(s, p0)
  {
    p := p0;
    while buf[p] != NUL && IsSpace(buf[p])
      invariant p0 <= p <= |s| && SkipSpace(s, p) == SkipSpace(s, p0)
      decreases |s| - p
    {
      assert buf[p] == buf[p0..|s|][p - p0] == s[p];
      p := p + 1;
    }
    if p < |s| {
      assert buf[p] == buf[p0..|s|][p - p0] == s[p];
    }
  }

  /** Runs to the end of an argument and terminates it there, unless the line ends first. */
  method Terminate(buf: array<char>, start: nat, quote: char, ghost s: string) returns (p: nat, ghost end: nat)
    requires start <= |s| < buf.Length && NoNul(s) && buf[|s|] == NUL && buf[start..|s|] == s[start..]
    modifies buf
    ensures end == EndOf(s, start, quote) && p == Min(end + 1, |s|)
    ensures buf[..] == old(buf[..])[end := NUL]
  {
    p := start;
    while buf[p] != NUL
      invariant start <= p <= |s| && EndOf(s, p, quote) == EndOf(s, start, quote)
      invariant buf[..] == old(buf[..])
      decreases |s| - p
    {
      assert buf[p] == old(buf[start..|s|])[p - start] == s[p];
      if quote != NUL {
        if buf[p] == quote {
          end := p;
          buf[p] := NUL;
          p := p + 1;
          return;
        }
      } else if IsSpace(buf[p]) {
        end := p;
        buf[p] := NUL;
        p := p + 1;
        return;
      }
      p := p + 1;
    }
    end := p;
  }

  /** One round of the loop: the next argument is found and terminated, or only white space is left. */
  method NextArgument(buf: array<char>, p: nat, ghost s: string)
    returns (found: bool, start: nat, next: nat, ghost end: nat)
    requires p <= |s| < buf.Length && NoNul(s) && buf[|s|] == NUL && buf[p..|s|] == s[p..]
    modifies buf
    ensures found <==> SkipSpace(s, p) < |s|
    ensures !found ==> buf[..] == old(buf[..]) && next == |s|
    ensures found ==> p <= end <= |s| && IsSlice(s, p, Slice(start, end)) && next == Min(end + 1, |s|)
    ensures found ==> buf[..] == old(buf[..])[end := NUL]
  {
    hide SkipSpace, EndOf;
    var quote := NUL;
    start := SkipBlanks(buf, p, s);
    CharAt(buf, p, start, s);
    next, end := start, start;
    found := buf[start] != NUL;
    if !found {
      return;
    }
    if buf[start] == '"' || buf[start] == '\'' {
      quote := buf[start];
      start := start + 1;
    }
    LaterPart(buf, p, start, s);
    next, end := Terminate(buf, start, quote, s);
  }

  /** The slice of the argument after the white space at p. */
  ghost predicate IsSlice(s: string, p: nat, slice: Slice)
    requires p <= |s| && SkipSpace(s, p) < |s|
  {
    var q, c := SkipSpace(s, p), s[SkipSpace(s, p)];
    slice == if IsQuote(c) then Slice(q + 1, EndOf(s, q + 1, c)) else Slice(q, EndOf(s, q, NUL))
  }

  /**
   * `split_command_line`: argv points at the starts of the slices, in order, the buffer is changed only by
   * the terminators, and no more than maxArgs pointers are stored.
   */
  method SplitCommandLine(buf: array<char>, argv: array<nat>, maxArgs: nat, ghost s: string) returns (argc: nat)
    requires IsCString(buf[..], s) && maxArgs <= argv.Length
    modifies buf, argv
    ensures argc == |Slices(s, 0, maxArgs)|
    ensures forall k :: 0 <= k < |Slices(s, 0, maxArgs)| ==> Slices(s, 0, maxArgs)[k].end < buf.Length
    ensures buf[..] == Marked(old(buf[..]), Slices(s, 0, maxArgs))
    ensures argc <= maxArgs && forall k :: 0 <= k < argc ==> argv[k] == Slices(s, 0, maxArgs)[k].start
    ensures forall k :: argc <= k < argv.Length ==> argv[k] == old(argv[k])
  {
    hide SkipSpace, EndOf, Slices, Marked, IsSlice, NoNul;
    argc := 0;
    var p := 0;
    ghost var all := Slices(s, 0, maxArgs);
    ghost var done: seq<Slice> := Unmarked(buf[..], all);
    assert buf[0..|s|] == buf[..|s|] && s[0..] == s;
    while buf[p] != NUL && argc < maxArgs
      invariant p <= |s| && buf[|s|] == NUL && buf[p..|s|] == s[p..]
      invariant argc == |done| <= maxArgs && done + Slices(s, p, maxArgs - argc) == all
      invariant forall k :: 0 <= k < |done| ==> done[k].end <= |s|
      invariant buf[..] == Marked(old(buf[..]), done)
      invariant forall k :: 0 <= k < argc ==> argv[k] == done[k].start
      invariant forall k :: argc <= k < argv.Length ==> argv[k] == old(argv[k])
      decreases |s| - p
    {
      ghost var before := buf[..];
      var found, start, next, end := NextArgument(buf, p, s);
      if !found {
        NothingLeft(s, p, maxArgs - argc);
        p := next;
        break;
      }
      argv[argc] := start;
      argc := argc + 1;
      done := NextSlice(s, p, maxArgs - argc, done, Slice(start, end), all, old(buf[..]), before);
      Untouched(before, p, end, next, s);
      p := next;
    }
    if argc < maxArgs {
      EndReached(buf, p, s);
      AtEnd(s, maxArgs - argc);
    } else {
      NoneAsked(s, p);
    }
    assert done + [] == done;
  }

  lemma CharAt(buf: array<char>, p: nat, q: nat, s: string)
    requires p <= q <= |s| < buf.Length && buf[p..|s|] == s[p..] && buf[|s|] == NUL
    ensures q < |s| ==> buf[q] == s[q]
  {
    if q < |s| {
      assert buf[p..|s|][q - p] == s[p..][q - p];
    }
  }

  lemma EndReached(buf: array<char>, p: nat, s: string)
    requires p <= |s| < buf.Length && buf[p..|s|] == s[p..] && NoNul(s) && buf[p] == NUL
    ensures p == |s|
  {
    CharAt(buf, p, p, s);
  }

  lemma LaterPart(buf: array<char>, p: nat, q: nat, s: string)
    requires p <= q <= |s| < buf.Length && buf[p..|s|] == s[p..]
    ensures buf[q..|s|] == s[q..]
  {
    assert buf[q..|s|] == buf[p..|s|][q - p..];
    assert s[q..] == s[p..][q - p..];
  }

  lemma Untouched(before: seq<char>, p: nat, end: nat, next: nat, s: string)
    requires p <= end <= |s| < |before| && next == Min(end + 1, |s|) && before[|s|] == NUL
    requires before[p..|s|] == s[p..]
    ensures before[end := NUL][|s|] == NUL && before[end := NUL][next..|s|] == s[next..]
  {
    assert before[end := NUL][next..|s|] == before[next..|s|];
    assert before[next..|s|] == before[p..|s|][next - p..];
    assert s[next..] == s[p..][next - p..];
  }

  lemma NothingLeft(s: string, p: nat, max: nat)
    requires p <= |s| && SkipSpace(s, p) == |s|
    ensures Slices(s, p, max) == []
  {
  }

  lemma NoneAsked(s: string, p: nat)
    requires p <= |s|
    ensures Slices(s, p, 0) == []
  {
  }

  lemma Unmarked(b: seq<char>, all: seq<Slice>) returns (none: seq<Slice>)
    ensures none == [] && Marked(b, none) == b && none + all == all
  {
    none := [];
  }

  lemma AtEnd(s: string, max: nat)
    ensures Slices(s, |s|, max) == []
  {
  }

  lemma NextSlice(s: string, p: nat, left: nat, done: seq<Slice>, slice: Slice, all: seq<Slice>, start: seq<char>,
      b: seq<char>)
    returns (next: seq<Slice>)
    requires p <= |s| < |start| && done + Slices(s, p, left + 1) == all
    requires SkipSpace(s, p) < |s|
    requires IsSlice(s, p, slice)
    requires (forall k :: 0 <= k < |done| ==> done[k].end <= |s|) && b == Marked(start, done)
    ensures next == done + [slice] && next + Slices(s, Min(slice.end + 1, |s|), left) == all
    ensures (forall k :: 0 <= k < |next| ==> next[k].end <= |s|) && b[slice.end := NUL] == Marked(start, next)
  {
    hide EndOf, SkipSpace;
    next := done + [slice];
    assert next[..|next| - 1] == done;
    assert Slices(s, p, left + 1) == [slice] + Slices(s, Min(slice.end + 1, |s|), left);
  }

  // ---------- What the pointers point at ----------

  lemma {:induction false} MarkedAt(b: seq<char>, slices: seq<Slice>, i: nat)
    requires i < |b| && forall k :: 0 <= k < |slices| ==> slices[k].end < |b|
    ensures (forall k :: 0 <= k < |slices| ==> slices[k].end != i) ==> Marked(b, slices)[i] == b[i]
    ensures (exists k :: 0 <= k < |slices| && slices[k].end == i) ==> Marked(b, slices)[i] == NUL
  {
    if slices != [] {
      MarkedAt(b, slices[..|slices| - 1], i);
    }
  }

  lemma {:induction false} CStringIs(b: seq<char>, p: nat, text: string)
    requires p + |text| < |b| && b[p..p + |text|] == text && b[p + |text|] == NUL && NoNul(text)
    ensures CString(b, p) == text
    decreases |text|
  {
    if text != [] {
      assert b[p] == b[p..p + |text|][0] == text[0];
      assert b[p + 1..p + |text|] == b[p..p + |text|][1..] == text[1..];
      CStringIs(b, p + 1, text[1..]);
      assert text == [text[0]] + text[1..];
    }
  }

  /** Disjoint slices of a marked buffer are C strings with exactly their text. */
  lemma SlicesAreStrings(b: seq<char>, s: string, slices: seq<Slice>, k: nat)
    requires IsCString(b, s) && Disjoint(slices, 0, |s|) && k < |slices|
    ensures CString(Marked(b, slices), slices[k].start) == s[slices[k].start..slices[k].end]
  {
    var slice, m := slices[k], Marked(b, slices);
    forall i | slice.start <= i < slice.end ensures m[i] == s[i] {
      MarkedAt(b, slices, i);
      assert b[..|s|][i] == s[i];
    }
    MarkedAt(b, slices, slice.end);
    var text := s[slice.start..slice.end];
    assert m[slice.start..slice.start + |text|] == text;
    CStringIs(m, slice.start, text);
  }

  // ---------- Writing a command line and splitting it again ----------

  /** An argument written as it is, or inside a quote character. */
  datatype Arg = Bare(text: string) | Quoted(text: string, quote: char) {
    predicate WellFormed() {
      match this
      case Bare(text) =>
        text != "" && !IsQuote(text[0]) && NoNul(text) && forall i :: 0 <= i < |text| ==> !IsSpace(text[i])
      case Quoted(text, quote) => IsQuote(quote) && NoNul(text) && quote !in text
    }

    function Written(): string {
      match this
      case Bare(text) => text
      case Quoted(text, quote) => [quote] + text + [quote]
    }
  }

  predicate Blank(s: string) {
    forall i :: 0 <= i < |s| ==> IsSpace(s[i])
  }

  /** Each argument after its white space, and white space at the end. */
  function Line(args: seq<Arg>, gaps: seq<string>, tail: string): string
    requires |gaps| == |args|
  {
    if args == [] then tail else gaps[0] + args[0].Written() + Line(args[1..], gaps[1..], tail)
  }

  /** Well-formed arguments, separated: only the first may have nothing before it. */
  predicate Separated(args: seq<Arg>, gaps: seq<string>, tail: string) {
    && |gaps| == |args| && Blank(tail)
    && (forall k :: 0 <= k < |args| ==> args[k].WellFormed() && Blank(gaps[k]))
    && forall k :: 1 <= k < |gaps| ==> gaps[k] != ""
  }

  function Texts(s: string, slices: seq<Slice>): (ts: seq<string>)
    requires forall k :: 0 <= k < |slices| ==> slices[k].start <= slices[k].end <= |s|
    ensures |ts| == |slices|
  {
    seq(|slices|, k requires 0 <= k < |slices| => s[slices[k].start..slices[k].end])
  }

  lemma {:induction false} SkipsTo(s: string, p: nat, q: nat)
    requires p <= q <= |s| && (forall i :: p <= i < q ==> IsSpace(s[i])) && (q < |s| ==> !IsSpace(s[q]))
    ensures SkipSpace(s, p) == q
    decreases q - p
  {
    if p < q {
      SkipsTo(s, p + 1, q);
    }
  }

  lemma {:induction false} EndsAt(s: string, p: nat, q: nat, quote: char)
    requires p <= q <= |s| && (forall i :: p <= i < q ==> !Ends(s[i], quote)) && (q < |s| ==> Ends(s[q], quote))
    ensures EndOf(s, p, quote) == q
    decreases q - p
  {
    if p < q {
      EndsAt(s, p + 1, q, quote);
    }
  }

  /** The next argument of a line, after whatever has been read already. */
  lemma FirstArg(s: string, pre: string, gap: string, arg: Arg, rest: string) returns (slice: Slice)
    requires s == pre + gap + arg.Written() + rest && arg.WellFormed() && Blank(gap)
    requires arg.Bare? && rest != "" ==> IsSpace(rest[0])
    ensures SkipSpace(s, |pre|) < |s| && IsSlice(s, |pre|, slice)
    ensures slice.start <= slice.end <= |s| && s[slice.start..slice.end] == arg.text
    ensures Min(slice.end + 1, |s|) == |pre + gap + arg.Written()| + if arg.Bare? && rest != "" then 1 else 0
  {
    var q := |pre + gap|;
    Parts(s, pre, gap, arg.Written(), rest);
    SkipsTo(s, |pre|, q);
    if arg.Bare? {
      slice := BareSlice(s, q, arg);
    } else {
      slice := QuotedSlice(s, q, arg);
    }
  }

  lemma Parts(s: string, pre: string, gap: string, w: string, rest: string)
    requires s == pre + gap + w + rest
    ensures var q := |pre + gap|;
            && q + |w| <= |s| && (rest != "" ==> q + |w| < |s| && s[q + |w|] == rest[0])
            && (forall i :: |pre| <= i < q ==> s[i] == gap[i - |pre|])
            && (forall i :: q <= i < q + |w| ==> s[i] == w[i - q])
            && (rest == "" ==> q + |w| == |s|)
  {
  }

  lemma BareSlice(s: string, q: nat, arg: Arg) returns (slice: Slice)
    requires arg.Bare? && arg.WellFormed() && q + |arg.text| <= |s|
    requires q + |arg.text| < |s| ==> IsSpace(s[q + |arg.text|])
    requires forall i :: q <= i < q + |arg.text| ==> s[i] == arg.text[i - q]
    ensures slice == Slice(q, EndOf(s, q, NUL)) && slice.end == q + |arg.text|
    ensures s[slice.start..slice.end] == arg.text
  {
    EndsAt(s, q, q + |arg.text|, NUL);
    slice := Slice(q, q + |arg.text|);
  }

  lemma QuotedSlice(s: string, q: nat, arg: Arg) returns (slice: Slice)
    requires arg.Quoted? && arg.WellFormed() && q + |arg.Written()| <= |s|
    requires forall i :: q <= i < q + |arg.Written()| ==> s[i] == arg.Written()[i - q]
    ensures slice == Slice(q + 1, EndOf(s, q + 1, s[q])) && slice.end == q + 1 + |arg.text|
    ensures s[slice.start..slice.end] == arg.text
  {
    var n := |arg.text|;
    assert forall i :: 0 <= i < n ==> arg.Written()[i + 1] == arg.text[i];
    assert forall i :: q + 1 <= i < q + 1 + n ==> s[i] == arg.text[i - q - 1];
    EndsAt(s, q + 1, q + 1 + n, arg.quote);
    slice := Slice(q + 1, q + 1 + n);
  }

  /** What is left when the white space that ended a bare argument has been consumed. */
  lemma DropBlank(args: seq<Arg>, gaps: seq<string>, tail: string) returns (gaps': seq<string>, tail': string)
    requires Separated(args, gaps, tail) && Line(args, gaps, tail) != "" && (gaps == [] || gaps[0] != "")
    ensures Separated(args, gaps', tail') && Line(args, gaps, tail)[1..] == Line(args, gaps', tail')
    ensures IsSpace(Line(args, gaps, tail)[0])
  {
    if args == [] {
      gaps', tail' := [], tail[1..];
    } else {
      gaps', tail' := [gaps[0][1..]] + gaps[1..], tail;
      assert gaps'[1..] == gaps[1..];
      var w, rest := args[0].Written(), Line(args[1..], gaps[1..], tail);
      assert (gaps[0] + w + rest)[1..] == gaps[0][1..] + w + rest;
    }
  }

  function ArgTexts(args: seq<Arg>): (ts: seq<string>)
    ensures |ts| == |args|
  {
    seq(|args|, k requires 0 <= k < |args| => args[k].text)
  }

  /** The slices from p on are disjoint and their texts are those of the arguments, max of them at most. */
  ghost predicate Yields(s: string, p: nat, max: nat, args: seq<Arg>)
    requires p <= |s|
  {
    Disjoint(Slices(s, p, max), p, |s|) && Texts(s, Slices(s, p, max)) == ArgTexts(args)[..Min(max, |args|)]
  }

  lemma NothingYielded(s: string, pre: string, args: seq<Arg>, gaps: seq<string>, tail: string, max: nat)
    requires Separated(args, gaps, tail) && s == pre + Line(args, gaps, tail) && (max == 0 || args == [])
    ensures Yields(s, |pre|, max, args)
  {
    SlicesDisjoint(s, |pre|, max);
    if max == 0 {
      NoneAsked(s, |pre|);
    } else {
      SkipsTo(s, |pre|, |s|);
      NothingLeft(s, |pre|, max);
    }
  }

  /** Splitting a written command line gives its arguments, as many as are asked for. */
  lemma {:induction false} SplitsIntoArgs(s: string, pre: string, args: seq<Arg>, gaps: seq<string>, tail: string,
      max: nat)
    requires Separated(args, gaps, tail) && s == pre + Line(args, gaps, tail)
    ensures Yields(s, |pre|, max, args)
    decreases |args|
  {
    hide SkipSpace, EndOf, Yields, Separated, Line, IsSlice;
    if max == 0 || args == [] {
      NothingYielded(s, pre, args, gaps, tail, max);
    } else {
      var slice, pre', gaps', tail' := Peel(s, pre, args, gaps, tail);
      SplitsIntoArgs(s, pre', args[1..], gaps', tail', max - 1);
      TextsNext(s, |pre|, |pre'|, max, slice, args);
    }
  }

  /** The first argument of a line and the line after it. */
  lemma Peel(s: string, pre: string, args: seq<Arg>, gaps: seq<string>, tail: string)
    returns (slice: Slice, pre': string, gaps': seq<string>, tail': string)
    requires Separated(args, gaps, tail) && args != [] && s == pre + Line(args, gaps, tail)
    ensures Separated(args[1..], gaps', tail') && s == pre' + Line(args[1..], gaps', tail')
    ensures SkipSpace(s, |pre|) < |s| && IsSlice(s, |pre|, slice)
    ensures slice.start <= slice.end <= |s| && s[slice.start..slice.end] == args[0].text
    ensures |pre'| == Min(slice.end + 1, |s|)
  {
    hide SkipSpace, EndOf, IsSlice;
    var arg, w, rest := args[0], args[0].Written(), Line(args[1..], gaps[1..], tail);
    pre', gaps', tail' := pre + gaps[0] + w, gaps[1..], tail;
    Bits.Associate(pre, gaps[0] + w, rest);
    Bits.Associate(pre, gaps[0], w);
    Later(args, gaps, tail);
    if arg.Bare? && rest != "" {
      gaps', tail' := DropBlank(args[1..], gaps[1..], tail);
      slice := FirstArg(s, pre, gaps[0], arg, rest);
      MoveFirst(pre', rest);
      pre' := pre' + [rest[0]];
    } else {
      slice := FirstArg(s, pre, gaps[0], arg, rest);
    }
  }

  lemma Later(args: seq<Arg>, gaps: seq<string>, tail: string)
    requires Separated(args, gaps, tail) && args != []
    ensures Separated(args[1..], gaps[1..], tail)
  {
  }

  lemma MoveFirst(pre: string, rest: string)
    requires rest != ""
    ensures pre + rest == pre + [rest[0]] + rest[1..]
  {
  }

  lemma TextsNext(s: string, p: nat, next: nat, max: nat, slice: Slice, args: seq<Arg>)
    requires p <= |s| && max > 0 && args != [] && SkipSpace(s, p) < |s| && IsSlice(s, p, slice)
    requires next == Min(slice.end + 1, |s|) && slice.start <= slice.end <= |s|
      && s[slice.start..slice.end] == args[0].text
    requires Yields(s, next, max - 1, args[1..])
    ensures Yields(s, p, max, args)
  {
    SlicesDisjoint(s, p, max);
    hide SkipSpace, EndOf;
    var more := Slices(s, next, max - 1);
    assert Slices(s, p, max) == [slice] + more;
    assert Texts(s, [slice] + more) == [args[0].text] + Texts(s, more);
    assert ArgTexts(args) == [args[0].text] + ArgTexts(args[1..]);
  }

  /**
   * The round trip: a buffer that holds a written command line is split into exactly its arguments,
   * as disjoint C strings in order.
   */
  method SplitWritten(buf: array<char>, argv: array<nat>, maxArgs: nat, ghost args: seq<Arg>,
      ghost gaps: seq<string>, ghost tail: string)
    returns (argc: nat)
    requires Separated(args, gaps, tail) && |args| <= maxArgs <= argv.Length
    requires IsCString(buf[..], Line(args, gaps, tail))
    modifies buf, argv
    ensures argc == |args| <= argv.Length
    ensures forall k :: 0 <= k < argc ==> CString(buf[..], argv[k]) == args[k].text
    ensures forall j, k :: 0 <= j < k < argc ==> argv[j] + |args[j].text| < argv[k]
    ensures forall k :: 0 <= k < argc ==> argv[k] + |args[k].text| < buf.Length
  {
    ghost var s := Line(args, gaps, tail);
    ghost var slices, b := Slices(s, 0, maxArgs), buf[..];
    LineSlices(s, args, gaps, tail, maxArgs);
    argc := SplitCommandLine(buf, argv, maxArgs, s);
    hide Slices, CString, Marked, Line, IsCString;
    forall k | 0 <= k < argc ensures CString(buf[..], argv[k]) == args[k].text {
      SlicesAreStrings(b, s, slices, k);
    }
  }

  lemma LineSlices(s: string, args: seq<Arg>, gaps: seq<string>, tail: string, max: nat)
    requires Separated(args, gaps, tail) && s == Line(args, gaps, tail) && |args| <= max
    ensures var slices := Slices(s, 0, max);
            && Disjoint(slices, 0, |s|) && |slices| == |args|
            && forall k :: 0 <= k < |args| ==> s[slices[k].start..slices[k].end] == args[k].text
  {
    hide Slices, Line;
    var slices := Slices(s, 0, max);
    assert "" + s == s;
    SplitsIntoArgs(s, "", args, gaps, tail, max);
    SlicesDisjoint(s, 0, max);
    assert |ArgTexts(args)[..Min(max, |args|)]| == |args|;
    forall k | 0 <= k < |args| ensures s[slices[k].start..slices[k].end] == args[k].text {
      assert Texts(s, slices)[k] == ArgTexts(args)[k];
    }
  }
}
