/** Reading the dirty paths out of NUL-terminated git status output. */
module DirtyPaths {
  import opened Options
  import Text

  newtype byte = x: int | 0 <= x < 256

  type Bytes = seq<byte>
  datatype Problem = MissingTerminator | MalformedEntry | MissingSource
  datatype Parsed<+T> = Paths(paths: T) | Rejected(problem: Problem)

  const NUL: byte := 0
  const SPACE: byte := 32
  const LETTER_R: byte := 82
  const LETTER_C: byte := 67

  // ---- What git prints ------------------------------------------------------------------------------

  /** One status entry; a rename or copy carries the path it came from. */
  datatype Entry = Entry(x: byte, y: byte, path: Bytes, source: Option<Bytes>)

  predicate Renames(x: byte, y: byte) {
    x == LETTER_R || y == LETTER_R || x == LETTER_C || y == LETTER_C
  }

  /** git prints an R for a rename and a C for a copy, in the index or in the working tree. */
  predicate Status(b: byte) {
    b as int == 'R' as int || b as int == 'C' as int
  }

  predicate NoNul(s: Bytes) {
    forall i :: 0 <= i < |s| ==> s[i] != NUL
  }

  predicate WellFormed(e: Entry) {
    && e.x != NUL && e.y != NUL && NoNul(e.path) && e.path != []
    && (e.source.Some? <==> Status(e.x) || Status(e.y)) && (e.source.Some? ==> NoNul(e.source.value))
  }

  function Head(e: Entry): Bytes {
    [e.x, e.y, SPACE] + e.path
  }

  function Printed(e: Entry): Bytes {
    Head(e) + [NUL] + if e.source.Some? then e.source.value + [NUL] else []
  }

  function PrintedAll(entries: seq<Entry>): Bytes {
    if entries == [] then [] else Printed(entries[0]) + PrintedAll(entries[1..])
  }

  /** The paths of the entries, as text; `decode` repairs invalid UTF-8 and normalises separators. */
  function PathsOf(entries: seq<Entry>, decode: Bytes -> string): set<string> {
    if entries == [] then {}
    else
      {decode(entries[0].path)} + (if entries[0].source.Some? then {decode(entries[0].source.value)} else {})
      + PathsOf(entries[1..], decode)
  }

  // ---- Parsing --------------------------------------------------------------------------------------

  function FirstNul(s: Bytes): (end: nat)
    ensures end <= |s| && NoNul(s[..end]) && (end < |s| ==> s[end] == NUL)
  {
    if s == [] || s[0] == NUL then 0
    else
      var rest := FirstNul(s[1..]);
      assert s[..rest + 1] == [s[0]] + s[1..][..rest];
      rest + 1
  }

  function Parse(output: Bytes, paths: set<string>, decode: Bytes -> string): Parsed<set<string>>
    decreases |output|
  {
    if output == [] then Paths(paths)
    else
      var end := FirstNul(output);
      if end == |output| then Rejected(MissingTerminator)
      else
        var entry, rest := output[..end], output[end + 1..];
        if |entry| < 4 || entry[2] != SPACE then Rejected(MalformedEntry)
        else
          var more := paths + {decode(entry[3..])};
          if !Renames(entry[0], entry[1]) then Parse(rest, more, decode)
          else
            var stop := FirstNul(rest);
            if stop == |rest| then Rejected(MissingSource)
            else Parse(rest[stop + 1..], more + {decode(rest[..stop])}, decode)
  }

  lemma ParseRefused(output: Bytes, paths: set<string>, decode: Bytes -> string)
    requires output != []
    ensures FirstNul(output) == |output| ==> Parse(output, paths, decode) == Rejected(MissingTerminator)
    ensures FirstNul(output) < |output| && (FirstNul(output) < 4 || output[2] != SPACE) ==>
      Parse(output, paths, decode) == Rejected(MalformedEntry)
  {
    hide FirstNul, Renames;
  }

  /** One entry is taken off the front; its source is still to come when it is a rename or a copy. */
  lemma ParseEntry(output: Bytes, end: nat, paths: set<string>, decode: Bytes -> string)
    requires 4 <= end == FirstNul(output) < |output| && output[2] == SPACE
    ensures var rest, more := output[end + 1..], paths + {decode(output[3..end])};
            Parse(output, paths, decode)
            == if !Renames(output[0], output[1]) then Parse(rest, more, decode)
               else if FirstNul(rest) == |rest| then Rejected(MissingSource)
               else Parse(rest[FirstNul(rest) + 1..], more + {decode(rest[..FirstNul(rest)])}, decode)
  {
    hide FirstNul, Renames;
    assert output[..end][3..] == output[3..end];
  }

  method FindNul(output: Bytes, offset: nat) returns (end: nat)
    requires offset <= |output|
    ensures offset <= end <= |output| && end - offset == FirstNul(output[offset..])
  {
    end := offset;
    while end < |output| && output[end] != NUL
      invariant offset <= end <= |output|
      invariant FirstNul(output[offset..]) == end - offset + FirstNul(output[end..])
    {
      assert output[end..][0] == output[end] && output[end..][1..] == output[end + 1..];
      end := end + 1;
    }
  }

  /** Reads one entry at `offset`, with its source path when it has one. */
  method NextEntry(output: Bytes, offset: nat, paths: set<string>, decode: Bytes -> string)
    returns (problem: Option<Problem>, next: nat, more: set<string>)
    requires offset < |output|
    ensures problem.Some? ==> Parse(output[offset..], paths, decode) == Rejected(problem.value)
    ensures problem.None? ==> offset < next <= |output|
    ensures problem.None? ==> Parse(output[offset..], paths, decode) == Parse(output[next..], more, decode)
  {
    hide FirstNul, Parse;
    ghost var left := output[offset..];
    ParseRefused(left, paths, decode);
    var end := FindNul(output, offset);
    if end == |output| { return Some(MissingTerminator), offset, paths; }
    var entry := output[offset..end];
    if |entry| < 4 || entry[2] != SPACE { return Some(MalformedEntry), offset, paths; }
    ParseEntry(left, end - offset, paths, decode);
    assert entry[3..] == left[3..end - offset] && output[end + 1..] == left[end - offset + 1..];
    more := paths + {decode(entry[3..])};
    next := end + 1;
    if entry[0] == LETTER_R || entry[1] == LETTER_R || entry[0] == LETTER_C || entry[1] == LETTER_C {
      var source;
      source, next := NextSource(output, next);
      if source.None? { return Some(MissingSource), offset, paths; }
      more := more + {decode(source.value)};
    }
    problem := None;
  }

  /** Reads the source path of a rename or copy, up to its terminator. */
  method NextSource(output: Bytes, offset: nat) returns (source: Option<Bytes>, next: nat)
    requires offset <= |output|
    ensures var rest := output[offset..]; var stop := FirstNul(rest);
            if stop == |rest| then source.None?
            else source == Some(rest[..stop]) && offset < next <= |output| && output[next..] == rest[stop + 1..]
  {
    hide FirstNul;
    var end := FindNul(output, offset);
    if end == |output| { return None, offset; }
    assert output[offset..end] == output[offset..][..end - offset];
    source, next := Some(output[offset..end]), end + 1;
  }

  /** The parser: an offset moving through the output, and a set of the paths so far. */
  method ParseDirtyPaths(output: Bytes, decode: Bytes -> string) returns (result: Parsed<seq<string>>)
    ensures match Parse(output, {}, decode)
            case Paths(paths) => result == Paths(Text.Listing(paths))
            case Rejected(problem) => result == Rejected(problem)
  {
    hide Text.Listing;
    var paths: set<string> := {};
    var offset := 0;
    assert output[0..] == output;
    while offset < |output|
      invariant 0 <= offset <= |output|
      invariant Parse(output, {}, decode) == Parse(output[offset..], paths, decode)
    {
      var problem, next, more := NextEntry(output, offset, paths, decode);
      if problem.Some? { return Rejected(problem.value); }
      offset, paths := next, more;
    }
    result := Paths(Text.Listing(paths));
  }

  // ---- The parser undoes the printer ----------------------------------------------------------------

  lemma {:induction false} NulAfter(s: Bytes, rest: Bytes)
    requires NoNul(s)
    ensures FirstNul(s + [NUL] + rest) == |s|
  {
    var text := s + [NUL] + rest;
    if s == [] {
      assert text[0] == NUL;
    } else {
      assert text[0] == s[0] && text[1..] == s[1..] + [NUL] + rest;
      NulAfter(s[1..], rest);
    }
  }

  lemma {:induction false} NoNulAtAll(s: Bytes)
    requires NoNul(s)
    ensures FirstNul(s) == |s|
  {
    if s != [] { NoNulAtAll(s[1..]); }
  }

  lemma HeadTaken(e: Entry, rest: Bytes)
    requires WellFormed(e)
    ensures var text := Head(e) + [NUL] + rest;
            && FirstNul(text) == |Head(e)| < |text| && text[..|Head(e)|] == Head(e) && text[|Head(e)| + 1..] == rest
            && |Head(e)| >= 4 && Head(e)[0] == e.x && Head(e)[1] == e.y && Head(e)[2] == SPACE && Head(e)[3..] == e.path
  {
    assert NoNul(Head(e)) by {
      forall i | 0 <= i < |Head(e)| ensures Head(e)[i] != NUL {
        if i >= 3 { assert Head(e)[i] == e.path[i - 3]; }
      }
    }
    NulAfter(Head(e), rest);
  }

  lemma EntryTaken(e: Entry, rest: Bytes, paths: set<string>, decode: Bytes -> string)
    requires WellFormed(e)
    ensures Parse(Printed(e) + rest, paths, decode)
            == Parse(rest, paths + {decode(e.path)} + (if e.source.Some? then {decode(e.source.value)} else {}), decode)
  {
    hide FirstNul;
    if e.source.Some? {
      var tail := e.source.value + [NUL] + rest;
      assert Printed(e) + rest == Head(e) + [NUL] + tail;
      HeadTaken(e, tail);
      NulAfter(e.source.value, rest);
      assert tail[..|e.source.value|] == e.source.value && tail[|e.source.value| + 1..] == rest;
    } else {
      assert Printed(e) + rest == Head(e) + [NUL] + rest;
      HeadTaken(e, rest);
      assert paths + {decode(e.path)} + {} == paths + {decode(e.path)};
    }
  }

  lemma {:induction false} ParseAppended(entries: seq<Entry>, tail: Bytes, paths: set<string>, decode: Bytes -> string)
    requires forall i :: 0 <= i < |entries| ==> WellFormed(entries[i])
    ensures Parse(PrintedAll(entries) + tail, paths, decode) == Parse(tail, paths + PathsOf(entries, decode), decode)
  {
    if entries == [] {
      assert PrintedAll(entries) + tail == tail && paths + {} == paths;
    } else {
      var e := entries[0];
      var more := paths + {decode(e.path)} + (if e.source.Some? then {decode(e.source.value)} else {});
      assert PrintedAll(entries) + tail == Printed(e) + (PrintedAll(entries[1..]) + tail);
      EntryTaken(e, PrintedAll(entries[1..]) + tail, paths, decode);
      ParseAppended(entries[1..], tail, more, decode);
      assert more + PathsOf(entries[1..], decode) == paths + PathsOf(entries, decode);
    }
  }

  /** Parsing what git prints gives the set of all target and source paths. */
  lemma RoundTrip(entries: seq<Entry>, decode: Bytes -> string)
    requires forall i :: 0 <= i < |entries| ==> WellFormed(entries[i])
    ensures Parse(PrintedAll(entries), {}, decode) == Paths(PathsOf(entries, decode))
  {
    ParseAppended(entries, [], {}, decode);
    assert PrintedAll(entries) + [] == PrintedAll(entries) && {} + PathsOf(entries, decode) == PathsOf(entries, decode);
  }

  /** Any unterminated tail is rejected, whether it starts an entry or is the source of a rename. */
  lemma UnterminatedRejected(entries: seq<Entry>, tail: Bytes, decode: Bytes -> string)
    requires forall i :: 0 <= i < |entries| ==> WellFormed(entries[i])
    requires NoNul(tail)
    ensures tail != [] ==> Parse(PrintedAll(entries) + tail, {}, decode) == Rejected(MissingTerminator)
    ensures forall e :: WellFormed(e) && e.source.Some? ==>
      Parse(PrintedAll(entries) + (Head(e) + [NUL] + tail), {}, decode) == Rejected(MissingSource)
  {
    hide FirstNul;
    ParseAppended(entries, tail, {}, decode);
    NoNulAtAll(tail);
    forall e | WellFormed(e) && e.source.Some?
      ensures Parse(PrintedAll(entries) + (Head(e) + [NUL] + tail), {}, decode) == Rejected(MissingSource)
    {
      ParseAppended(entries, Head(e) + [NUL] + tail, {}, decode);
      HeadTaken(e, tail);
    }
  }

  lemma RenamesExactly(x: byte, y: byte)
    ensures Renames(x, y) <==> Status(x) || Status(y)
  {
  }

  /** A terminated entry of fewer than four bytes, or without the blank after its status, is malformed. */
  lemma MalformedRejected(entries: seq<Entry>, entry: Bytes, rest: Bytes, decode: Bytes -> string)
    requires forall i :: 0 <= i < |entries| ==> WellFormed(entries[i])
    requires NoNul(entry) && (|entry| < 4 || entry[2] as int != ' ' as int)
    ensures Parse(PrintedAll(entries) + (entry + [NUL] + rest), {}, decode) == Rejected(MalformedEntry)
  {
    hide FirstNul;
    var tail := entry + [NUL] + rest;
    ParseAppended(entries, tail, {}, decode);
    NulAfter(entry, rest);
    if |entry| >= 4 { assert tail[2] == entry[2]; }
    ParseRefused(tail, {} + PathsOf(entries, decode), decode);
  }

  lemma HeadNoNul(e: Entry, head: Bytes)
    requires NoNul(head) && head == Head(e)
    ensures e.x != NUL && e.y != NUL && NoNul(e.path)
  {
    assert head[0] == e.x && head[1] == e.y && forall i :: 0 <= i < |e.path| ==> e.path[i] == head[i + 3];
  }

  /** The entry an accepted output begins with. */
  lemma EntryRead(output: Bytes, paths: set<string>, decode: Bytes -> string) returns (e: Entry, rest: Bytes)
    requires output != [] && Parse(output, paths, decode).Paths?
    ensures WellFormed(e) && output == Printed(e) + rest
    ensures Parse(output, paths, decode)
            == Parse(rest, paths + {decode(e.path)} + (if e.source.Some? then {decode(e.source.value)} else {}), decode)
  {
    hide Parse, FirstNul, Renames;
    ParseRefused(output, paths, decode);
    var end := FirstNul(output);
    ParseEntry(output, end, paths, decode);
    var head := output[..end];
    rest := output[end + 1..];
    e := Entry(head[0], head[1], head[3..], None);
    assert head == Head(e) && output == head + [NUL] + rest;
    HeadNoNul(e, head);
    if Renames(e.x, e.y) {
      var stop := FirstNul(rest);
      e := e.(source := Some(rest[..stop]));
      var source, after := rest[..stop] + [NUL], rest[stop + 1..];
      assert rest == source + after;
      assert Printed(e) == head + [NUL] + source;
      assert output == head + [NUL] + (source + after) == Printed(e) + after;
      rest := after;
    } else {
      assert Printed(e) == head + [NUL] + [] == head + [NUL];
    }
    assert output == Printed(e) + rest;
    RenamesExactly(e.x, e.y);
    assert WellFormed(e);
    EntryTaken(e, rest, paths, decode);
  }

  /** Nothing but what git prints is accepted. */
  lemma {:induction false} AcceptsOnlyPrinted(output: Bytes, paths: set<string>, decode: Bytes -> string)
    returns (entries: seq<Entry>)
    requires Parse(output, paths, decode).Paths?
    ensures forall i :: 0 <= i < |entries| ==> WellFormed(entries[i])
    ensures output == PrintedAll(entries) && Parse(output, paths, decode) == Paths(paths + PathsOf(entries, decode))
    decreases |output|
  {
    hide Parse, Printed;
    if output == [] {
      entries := [];
      EmptyParse(paths, decode);
    } else {
      var e, rest := EntryRead(output, paths, decode);
      PrintedLength(e);
      var own := {decode(e.path)} + (if e.source.Some? then {decode(e.source.value)} else {});
      var more := paths + {decode(e.path)} + (if e.source.Some? then {decode(e.source.value)} else {});
      var others := AcceptsOnlyPrinted(rest, more, decode);
      entries := [e] + others;
      assert entries[1..] == others;
      assert paths + (own + PathsOf(others, decode)) == more + PathsOf(others, decode);
    }
  }

  lemma EmptyParse(paths: set<string>, decode: Bytes -> string)
    ensures Parse([], paths, decode) == Paths(paths) && paths + {} == paths
  {
  }

  lemma PrintedLength(e: Entry)
    ensures |Printed(e)| > 0
  {
  }
}
