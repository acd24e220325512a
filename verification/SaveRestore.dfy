/**
 Reading iptables-save output (pkg/util/iptables/save_restore.go). Bytes are characters here.
 The byte scanner is proved equal to a line-wise description, and printing and parsing a
 table are proved to undo each other on the tunnel chain.
 */
module SaveRestore {
  import opened Common

  // ----- Lines ------------------------------------------------------------------------------------------

  function TrimLeft(s: string): string {
    if s != [] && s[0] == ' ' then TrimLeft(s[1..]) else s
  }

  function TrimRight(s: string): string {
    if s != [] && s[|s| - 1] == ' ' then TrimRight(s[..|s| - 1]) else s
  }

  function Trim(s: string): string {
    TrimRight(TrimLeft(s))
  }

  /** The position of the next newline, or the length if there is none. */
  function LineEnd(b: string, i: nat): (end: nat)
    requires i <= |b|
    ensures i <= end <= |b|
    ensures forall k :: i <= k < end ==> b[k] != '\n'
    ensures end < |b| ==> b[end] == '\n'
    decreases |b| - i
  {
    if i == |b| || b[i] == '\n' then i else LineEnd(b, i + 1)
  }

  /** What the scanner makes of text that no newline ends. */
  function Unterminated(rest: string): string {
    var s := TrimLeft(rest);
    if |s| <= 1 || s[|s| - 1] == ' ' then ""
    else if s[|s| - 2] == ' ' then TrimRight(s[..|s| - 1])
    else s
  }

  /** The line that starts at i and the index behind it. */
  function LineAt(b: string, i: nat): (string, nat)
    requires i <= |b|
  {
    var end := LineEnd(b, i);
    if end < |b| then (Trim(b[i..end]), end + 1) else (Unterminated(b[i..]), |b|)
  }

  /** On a line that a newline ends, the scanner trims; and it always advances, within the buffer. */
  lemma LineAtTrims(b: string, i: nat)
    requires i < |b|
    ensures i < LineAt(b, i).1 <= |b|
    ensures '\n' in b[i..] ==> LineAt(b, i) == (Trim(b[i..LineEnd(b, i)]), LineEnd(b, i) + 1)
  {
  }

  lemma {:induction false} TrimLeftFirst(s: string)
    ensures TrimLeft(s) != [] ==> TrimLeft(s)[0] != ' '
    ensures |TrimLeft(s)| <= |s|
    decreases |s|
  {
    if s != [] && s[0] == ' ' { TrimLeftFirst(s[1..]); }
  }

  lemma {:induction false} TrimRightLast(s: string)
    ensures TrimRight(s) != [] ==> TrimRight(s)[|TrimRight(s)| - 1] != ' '
    ensures TrimRight(s) <= s
    ensures s != [] && s[0] != ' ' ==> TrimRight(s) != []
    decreases |s|
  {
    if s != [] && s[|s| - 1] == ' ' { TrimRightLast(s[..|s| - 1]); }
  }

  /**
   Without a final newline the scanner is right exactly when nothing is left after trimming on
   the left, or the last two characters are both no spaces (and there are two).
   */
  lemma UnterminatedIff(rest: string)
    ensures Unterminated(rest) == Trim(rest) <==>
            var s := TrimLeft(rest);
            s == "" || (|s| >= 2 && s[|s| - 1] != ' ' && s[|s| - 2] != ' ')
  {
    var s := TrimLeft(rest);
    TrimLeftFirst(rest);
    TrimRightLast(s);
    if |s| >= 2 && s[|s| - 1] != ' ' && s[|s| - 2] == ' ' {
      TrimRightLast(s[..|s| - 1]);
    }
  }

  /** A stretch without leading and trailing spaces is what trimming leaves. */
  lemma {:induction false} TrimIs(b: string, i: nat, left: nat, right: nat, end: nat)
    requires i <= left <= right <= end <= |b|
    requires forall k :: i <= k < left || right <= k < end ==> b[k] == ' '
    requires left < right ==> b[left] != ' ' && b[right - 1] != ' '
    requires left == right ==> right == end
    ensures TrimLeft(b[i..end]) == b[left..end]
    ensures Trim(b[i..end]) == b[left..right]
    decreases left - i, end - right
  {
    if i < left {
      assert b[i..end][1..] == b[i + 1..end];
      TrimIs(b, i + 1, left, right, end);
    } else if right < end {
      assert b[i..end][..|b[i..end]| - 1] == b[i..end - 1];
      TrimIs(b, i, left, right, end - 1);
    } else if left < right {
      assert b[i..end][0] == b[left];
    }
  }

  /** ReadLine, index by index as in the source; -1 stands for "not yet determined". */
  method ReadLine(readIndex: nat, byteArray: string) returns (line: string, next: nat)
    requires readIndex <= |byteArray|
    ensures (line, next) == LineAt(byteArray, readIndex)
  {
    hide LineAt;
    var b := byteArray;
    var currentReadIndex := readIndex;
    ghost var end := LineEnd(b, readIndex);
    while currentReadIndex < |b|
      invariant readIndex <= currentReadIndex <= end
      invariant forall k :: readIndex <= k < currentReadIndex ==> b[k] == ' '
    {
      if b[currentReadIndex] == ' ' {
        currentReadIndex := currentReadIndex + 1;
      } else {
        break;
      }
    }
    var leftTrimIndex := currentReadIndex;
    var rightTrimIndex := -1;
    assert currentReadIndex < |b| ==> b[currentReadIndex] != ' ';
    while currentReadIndex < |b|
      invariant leftTrimIndex <= currentReadIndex <= end
      invariant rightTrimIndex == -1 || leftTrimIndex < rightTrimIndex < currentReadIndex
      invariant rightTrimIndex == -1 ==> currentReadIndex == leftTrimIndex || b[currentReadIndex - 1] != ' '
      invariant rightTrimIndex != -1 ==> b[rightTrimIndex - 1] != ' '
      invariant rightTrimIndex != -1 ==> forall k :: rightTrimIndex <= k < currentReadIndex ==> b[k] == ' '
      invariant currentReadIndex == |b| > leftTrimIndex ==> rightTrimIndex != -1
      decreases |b| - currentReadIndex
    {
      if b[currentReadIndex] == ' ' {
        if rightTrimIndex == -1 {
          rightTrimIndex := currentReadIndex;
        }
      } else if b[currentReadIndex] == '\n' || currentReadIndex == |b| - 1 {
        if currentReadIndex <= leftTrimIndex {
          EmptyLine(b, readIndex, currentReadIndex);
          return "", currentReadIndex + 1;
        }
        EndOfLine(b, readIndex, leftTrimIndex, rightTrimIndex, currentReadIndex);
        if rightTrimIndex == -1 {
          rightTrimIndex := currentReadIndex;
          if currentReadIndex == |b| - 1 && b[currentReadIndex] != '\n' {
            rightTrimIndex := currentReadIndex + 1;
          }
        }
        return b[leftTrimIndex..rightTrimIndex], currentReadIndex + 1;
      } else {
        rightTrimIndex := -1;
      }
      currentReadIndex := currentReadIndex + 1;
    }
    TrailingSpaces(b, readIndex, leftTrimIndex);
    return "", currentReadIndex;
  }

  /** Only spaces before a newline, or a single character at the end of the buffer. */
  lemma EmptyLine(b: string, i: nat, at: nat)
    requires i <= at < |b| && (forall k :: i <= k < at ==> b[k] == ' ')
    requires b[at] == '\n' || (at == |b| - 1 && b[at] != ' ')
    ensures LineAt(b, i) == ("", at + 1)
  {
    if b[at] == '\n' {
      assert LineEnd(b, i) == at;
      TrimIs(b, i, at, at, at);
    } else {
      TrimIs(b, i, at, at + 1, at + 1);
      assert b[i..] == b[i..at + 1];
    }
  }

  /** A line that is not empty ends at a newline or at the last character of the buffer. */
  lemma EndOfLine(b: string, i: nat, left: nat, right: int, at: nat)
    requires i <= left < at < |b| && at <= LineEnd(b, i) && (forall k :: i <= k < left ==> b[k] == ' ')
    requires b[left] != ' ' && b[at] != ' ' && (b[at] == '\n' || at == |b| - 1)
    requires right == -1 ==> b[at - 1] != ' '
    requires right != -1 ==> left < right < at && b[right - 1] != ' ' && forall k :: right <= k < at ==> b[k] == ' '
    ensures LineAt(b, i) == (b[left..if right != -1 then right else if b[at] == '\n' then at else at + 1], at + 1)
  {
    if b[at] == '\n' {
      TrimIs(b, i, left, if right == -1 then at else right, at);
    } else {
      LastCharacter(b, i, left, right);
      assert b[left..|b|] == b[left..];
    }
  }

  /** The buffer ends in a character that is no space and ends no line. */
  lemma LastCharacter(b: string, i: nat, left: nat, right: int)
    requires i <= left < |b| - 1 && (forall k :: i <= k < left ==> b[k] == ' ')
    requires b[left] != ' ' && b[|b| - 1] != ' ' && LineEnd(b, i) == |b|
    requires right == -1 ==> b[|b| - 2] != ' '
    requires right != -1 ==> left < right < |b| - 1 && b[right - 1] != ' '
    requires right != -1 ==> forall k :: right <= k < |b| - 1 ==> b[k] == ' '
    ensures LineAt(b, i) == (if right == -1 then b[left..] else b[left..right], |b|)
  {
    TrimIs(b, i, left, |b|, |b|);
    assert b[i..|b|] == b[i..] && b[left..|b|] == b[left..];
    var s := b[left..];
    assert s[|s| - 2] == b[|b| - 2];
    if right != -1 {
      assert s[..|s| - 1] == b[left..|b| - 1];
      TrimIs(b, left, left, right, |b| - 1);
      assert TrimLeft(s[..|s| - 1]) == s[..|s| - 1];
    }
  }

  /** Nothing but spaces up to the end of the buffer, possibly after some text. */
  lemma TrailingSpaces(b: string, i: nat, left: nat)
    requires i <= left <= |b| && (forall k :: i <= k < left ==> b[k] == ' ') && LineEnd(b, i) == |b|
    requires left < |b| ==> b[left] != ' ' && b[|b| - 1] == ' '
    ensures LineAt(b, i) == ("", |b|)
  {
    TrimLeftIs(b, i, left);
    assert b[i..|b|] == b[i..];
  }

  lemma {:induction false} TrimLeftIs(b: string, i: nat, left: nat)
    requires i <= left <= |b| && (forall k :: i <= k < left ==> b[k] == ' ') && (left < |b| ==> b[left] != ' ')
    ensures TrimLeft(b[i..]) == b[left..]
    decreases left - i
  {
    if i < left {
      assert b[i..][1..] == b[i + 1..];
      TrimLeftIs(b, i + 1, left);
    }
  }

  // ----- Tables and chains --------------------------------------------------------------------------------

  /** All lines from index i on. */
  function Lines(b: string, i: nat): seq<string>
    requires i <= |b|
    decreases |b| - i
  {
    if i == |b| then []
    else
      LineAtTrims(b, i);
      [LineAt(b, i).0] + Lines(b, LineAt(b, i).1)
  }

  /** The lines behind the first one with the prefix. */
  function Section(lines: seq<string>, prefix: string): seq<string> {
    if lines == [] then []
    else if prefix <= lines[0] then lines[1..]
    else Section(lines[1..], prefix)
  }

  predicate EndsTable(line: string) {
    "COMMIT" <= line || "*" <= line
  }

  predicate IsChainLine(line: string) {
    ":" <= line && |line| > 1
  }

  function IndexOfSpace(s: string): (i: nat)
    requires ' ' in s
    ensures i < |s| && s[i] == ' ' && ' ' !in s[..i]
  {
    if s[0] == ' ' then 0
    else
      var j := IndexOfSpace(s[1..]);
      assert s[..j + 1] == [s[0]] + s[1..][..j];
      j + 1
  }

  /** The chain that a chain line declares. */
  function ChainOf(line: string): string
    requires IsChainLine(line) && ' ' in line
  {
    line[1..IndexOfSpace(line)]
  }

  /** The chain lines up to the end of the table; None where the source would panic. */
  function Chains(lines: seq<string>, found: map<string, string>): Option<map<string, string>> {
    if lines == [] then Some(found)
    else if EndsTable(lines[0]) then Some(found)
    else if !IsChainLine(lines[0]) then Chains(lines[1..], found)
    else if ' ' !in lines[0] then None
    else Chains(lines[1..], found[ChainOf(lines[0]) := lines[0]])
  }

  method GetChainLines(table: string, save: string) returns (r: Option<map<string, string>>)
    ensures r == Chains(Section(Lines(save, 0), "*" + table), map[])
  {
    var chainsMap := map[];
    var tablePrefix := "*" + table;
    var readIndex := 0;
    ghost var all := Section(Lines(save, 0), tablePrefix);
    while readIndex < |save|
      invariant readIndex <= |save|
      invariant all == Section(Lines(save, readIndex), tablePrefix)
      decreases |save| - readIndex
    {
      LineAtTrims(save, readIndex);
      var line, n := ReadLine(readIndex, save);
      ghost var before := Lines(save, readIndex);
      assert before[0] == line && before[1..] == Lines(save, n);
      readIndex := n;
      if tablePrefix <= line {
        assert all == Lines(save, readIndex);
        break;
      }
    }
    assert all == Lines(save, readIndex);
    while readIndex < |save|
      invariant readIndex <= |save|
      invariant Chains(all, map[]) == Chains(Lines(save, readIndex), chainsMap)
      decreases |save| - readIndex
    {
      LineAtTrims(save, readIndex);
      var line, n := ReadLine(readIndex, save);
      ghost var before := Lines(save, readIndex);
      assert before[0] == line && before[1..] == Lines(save, n);
      readIndex := n;
      if |line| == 0 {
        continue;
      }
      if "COMMIT" <= line || "*" <= line {
        return Some(chainsMap);
      } else if "#" <= line {
        continue;
      } else if ":" <= line && |line| > 1 {
        if ' ' !in line { return None; }
        var chain := line[1..IndexOfSpace(line)];
        chainsMap := chainsMap[chain := line];
      }
    }
    return Some(chainsMap);
  }

  /** The lines of a table up to its end. */
  function TableLines(lines: seq<string>): seq<string> {
    if lines == [] || EndsTable(lines[0]) then [] else [lines[0]] + TableLines(lines[1..])
  }

  /** Scanning panics exactly when some chain line of the table has no space. */
  lemma {:induction false} PanicsIff(lines: seq<string>, found: map<string, string>)
    ensures Chains(lines, found).None? <==> exists line <- TableLines(lines) :: IsChainLine(line) && ' ' !in line
    decreases |lines|
  {
    if lines != [] && !EndsTable(lines[0]) {
      var rest := TableLines(lines[1..]);
      assert forall line :: line in TableLines(lines) <==> line == lines[0] || line in rest;
      if !IsChainLine(lines[0]) {
        PanicsIff(lines[1..], found);
      } else if ' ' in lines[0] {
        PanicsIff(lines[1..], found[ChainOf(lines[0]) := lines[0]]);
      } else {
        assert lines[0] in TableLines(lines);
      }
    }
  }

  /** The result maps exactly the declared chains, each to a line of the table that declares it. */
  lemma {:induction false} ChainsMeaning(lines: seq<string>, found: map<string, string>)
    requires Chains(lines, found).Some?
    ensures forall c <- Chains(lines, found).value ::
              var line := Chains(lines, found).value[c];
              (c in found && line == found[c]) ||
              (line in TableLines(lines) && IsChainLine(line) && ' ' in line && ChainOf(line) == c)
    ensures forall c <- found :: c in Chains(lines, found).value
    ensures forall line <- TableLines(lines) ::
              IsChainLine(line) ==> ' ' in line && ChainOf(line) in Chains(lines, found).value
    decreases |lines|
  {
    if lines != [] && !EndsTable(lines[0]) {
      var rest := TableLines(lines[1..]);
      assert forall line :: line in TableLines(lines) <==> line == lines[0] || line in rest;
      if !IsChainLine(lines[0]) {
        ChainsMeaning(lines[1..], found);
      } else {
        var now := found[ChainOf(lines[0]) := lines[0]];
        ChainsMeaning(lines[1..], now);
        assert ChainOf(lines[0]) in now;
      }
    }
  }

  // ----- Which lines count, wherever the table stands --------------------------------------------------

  /** Line k starts the table: comment lines and other tables may come before it. */
  predicate StartsAt(lines: seq<string>, prefix: string, k: nat) {
    k < |lines| && prefix <= lines[k] && forall j :: 0 <= j < k ==> !(prefix <= lines[j])
  }

  /** Line end is the first one that commits or starts a table, if there is one. */
  predicate EndsAt(lines: seq<string>, end: nat) {
    && end <= |lines| && (end < |lines| ==> "COMMIT" <= lines[end] || "*" <= lines[end])
    && forall j :: 0 <= j < end ==> !("COMMIT" <= lines[j]) && !("*" <= lines[j])
  }

  predicate Declares(line: string, chain: string) {
    ' ' !in chain && ":" + chain + " " <= line
  }

  predicate Spaceless(line: string) {
    ":" <= line && |line| > 1 && ' ' !in line
  }

  ghost predicate DeclaredIn(lines: seq<string>, end: nat, chain: string)
    requires end <= |lines|
  {
    exists j :: 0 <= j < end && Declares(lines[j], chain)
  }

  /** The last of the lines before end that declares the chain. */
  ghost predicate LastDeclares(lines: seq<string>, end: nat, chain: string, line: string)
    requires end <= |lines|
  {
    exists j :: 0 <= j < end && line == lines[j] && Declares(lines[j], chain) &&
      forall k :: j < k < end ==> !Declares(lines[k], chain)
  }

  lemma {:induction false} SectionIs(lines: seq<string>, prefix: string)
    ensures forall k: nat :: StartsAt(lines, prefix, k) ==> Section(lines, prefix) == lines[k + 1..]
    ensures (forall k :: 0 <= k < |lines| ==> !(prefix <= lines[k])) ==> Section(lines, prefix) == []
    decreases |lines|
  {
    if lines != [] && !(prefix <= lines[0]) {
      SectionIs(lines[1..], prefix);
      assert forall k :: 0 <= k < |lines[1..]| ==> lines[1..][k] == lines[k + 1];
      forall k: nat | StartsAt(lines, prefix, k) ensures Section(lines, prefix) == lines[k + 1..] {
        assert lines[k] == lines[1..][k - 1];
        assert StartsAt(lines[1..], prefix, k - 1);
        assert lines[1..][k..] == lines[k + 1..];
      }
    }
  }

  lemma DeclaresIff(line: string, chain: string)
    ensures Declares(line, chain) <==> IsChainLine(line) && ' ' in line && ChainOf(line) == chain
  {
    if Declares(line, chain) {
      var n := |chain| + 1;
      assert line[n] == (":" + chain + " ")[n] == ' ';
      assert line[..n] == (":" + chain + " ")[..n];
      assert line[1..n] == chain;
      assert ' ' !in line[..n] by {
        assert line[..n] == ":" + chain;
      }
      var i := IndexOfSpace(line);
      assert i >= n;
    } else if IsChainLine(line) && ' ' in line {
      var i := IndexOfSpace(line);
      assert line[0] == ':' && line[..i + 1] == ":" + line[1..i] + " ";
      assert forall c :: c in line[1..i] ==> c in line[..i];
    }
  }

  /** From any lines on: what is found, in addition to what was found before. */
  lemma {:induction false} ChainsFound(lines: seq<string>, found: map<string, string>, end: nat)
    requires EndsAt(lines, end)
    ensures Chains(lines, found).None? <==> exists j :: 0 <= j < end && Spaceless(lines[j])
    ensures Chains(lines, found).Some? ==>
              forall c :: c in Chains(lines, found).value <==> c in found || DeclaredIn(lines, end, c)
    ensures Chains(lines, found).Some? ==>
              forall c <- Chains(lines, found).value ::
                var line := Chains(lines, found).value[c];
                if DeclaredIn(lines, end, c) then LastDeclares(lines, end, c, line) else c in found && line == found[c]
    decreases end
  {
    if end > 0 {
      var rest := lines[1..];
      assert EndsAt(rest, end - 1) by {
        assert forall j :: 0 <= j < |rest| ==> rest[j] == lines[j + 1];
      }
      FirstOrLater(lines, end);
      if !IsChainLine(lines[0]) {
        ChainsFound(rest, found, end - 1);
        NotDeclared(lines[0]);
      } else if ' ' in lines[0] {
        ChainsFound(rest, found[ChainOf(lines[0]) := lines[0]], end - 1);
        OnlyDeclared(lines[0]);
      }
      hide Declares, IsChainLine, ChainOf;
    }
  }

  lemma NotDeclared(line: string)
    requires !IsChainLine(line)
    ensures forall c :: !Declares(line, c)
  {
    forall c ensures !Declares(line, c) { DeclaresIff(line, c); }
  }

  lemma OnlyDeclared(line: string)
    requires IsChainLine(line) && ' ' in line
    ensures forall c :: Declares(line, c) <==> c == ChainOf(line)
  {
    forall c ensures Declares(line, c) <==> c == ChainOf(line) { DeclaresIff(line, c); }
  }

  /** The first line and the ones after it. */
  lemma FirstOrLater(lines: seq<string>, end: nat)
    requires 0 < end <= |lines|
    ensures (exists j :: 0 <= j < end && Spaceless(lines[j])) <==>
            Spaceless(lines[0]) || exists j :: 0 <= j < end - 1 && Spaceless(lines[1..][j])
    ensures forall c :: DeclaredIn(lines, end, c) <==> Declares(lines[0], c) || DeclaredIn(lines[1..], end - 1, c)
    ensures forall c, line :: LastDeclares(lines[1..], end - 1, c, line) ==> LastDeclares(lines, end, c, line)
    ensures forall c :: Declares(lines[0], c) && !DeclaredIn(lines[1..], end - 1, c) ==>
              LastDeclares(lines, end, c, lines[0])
  {
    hide Declares, Spaceless;
    var rest := lines[1..];
    assert forall j :: 0 <= j < end - 1 ==> rest[j] == lines[j + 1];
    assert forall j :: 0 < j < end ==> lines[j] == rest[j - 1];
    forall c, line | LastDeclares(rest, end - 1, c, line) ensures LastDeclares(lines, end, c, line) {
      var j :| 0 <= j < end - 1 && line == rest[j] && Declares(rest[j], c) &&
        forall k :: j < k < end - 1 ==> !Declares(rest[k], c);
      assert line == lines[j + 1];
    }
  }

  /**
   Scanning saved text for a table: only the lines from behind its first start line to the next line
   that commits or starts a table count; each chain is found with the last line that declares it.
   */
  lemma TableFound(lines: seq<string>, prefix: string, start: nat, end: nat)
    requires StartsAt(lines, prefix, start) && EndsAt(lines[start + 1..], end)
    ensures var table, r := lines[start + 1..], Chains(Section(lines, prefix), map[]);
            && (r.None? <==> exists j :: 0 <= j < end && Spaceless(table[j]))
            && (r.Some? ==> forall c :: c in r.value <==> DeclaredIn(table, end, c))
            && (r.Some? ==> forall c <- r.value :: LastDeclares(table, end, c, r.value[c]))
  {
    SectionIs(lines, prefix);
    ChainsFound(lines[start + 1..], map[], end);
    hide StartsAt, EndsAt, DeclaredIn, LastDeclares, Section, Chains;
  }

  /** Without such a start line nothing is found. */
  lemma NoTableFound(lines: seq<string>, prefix: string)
    requires forall k :: 0 <= k < |lines| ==> !(prefix <= lines[k])
    ensures Chains(Section(lines, prefix), map[]) == Some(map[])
  {
    SectionIs(lines, prefix);
  }

  // ----- Printing -------------------------------------------------------------------------------------------

  function MakeChainLine(chain: string): string {
    ":" + chain + " - [0:0]"
  }

  /** Lines as they are written to a buffer. */
  function Buffer(lines: seq<string>): string {
    if lines == [] then "" else Buffer(lines[..|lines| - 1]) + lines[|lines| - 1] + "\n"
  }

  lemma {:induction false} BufferAppend(a: seq<string>, b: seq<string>)
    ensures Buffer(a + b) == Buffer(a) + Buffer(b)
    decreases |b|
  {
    if b == [] {
      assert a + b == a;
    } else {
      assert (a + b)[..|a + b| - 1] == a + b[..|b| - 1];
      BufferAppend(a, b[..|b| - 1]);
    }
  }

  function Trimmed(lines: seq<string>): seq<string> {
    seq(|lines|, i requires 0 <= i < |lines| => Trim(lines[i]))
  }

  predicate Newlineless(lines: seq<string>) {
    forall line <- lines :: '\n' !in line
  }

  /** Reading back a written buffer gives the lines, trimmed. */
  lemma {:induction false} LinesOfBuffer(b: string, i: nat, lines: seq<string>)
    requires Newlineless(lines) && i <= |b| && b[i..] == Buffer(lines)
    ensures Lines(b, i) == Trimmed(lines)
    decreases |lines|
  {
    hide Trim, Buffer, Newlineless, Trimmed, LineEnd;
    if lines == [] {
      EmptyBuffer();
    } else {
      RestNewlineless(lines);
      PeelLine(b, i, lines);
      TrimmedFirst(lines);
      LinesOfBuffer(b, LineEnd(b, i) + 1, lines[1..]);
      LinesStep(b, i);
    }
  }

  /** The first line of a written buffer, and what follows it. */
  lemma PeelLine(b: string, i: nat, lines: seq<string>)
    requires lines != [] && '\n' !in lines[0] && i <= |b| && b[i..] == Buffer(lines)
    ensures LineEnd(b, i) < |b| && b[i..LineEnd(b, i)] == lines[0]
    ensures b[LineEnd(b, i) + 1..] == Buffer(lines[1..])
  {
    BufferFirst(lines);
    FirstNewline(b, i, lines[0], Buffer(lines[1..]));
  }

  lemma EmptyBuffer()
    ensures Buffer([]) == "" && Trimmed([]) == []
  {
  }

  lemma RestNewlineless(lines: seq<string>)
    requires lines != [] && Newlineless(lines)
    ensures '\n' !in lines[0] && Newlineless(lines[1..])
  {
  }

  lemma TrimmedFirst(lines: seq<string>)
    requires lines != []
    ensures Trimmed(lines) == [Trim(lines[0])] + Trimmed(lines[1..])
  {
    hide Trim;
  }

  lemma BufferFirst(lines: seq<string>)
    requires lines != []
    ensures Buffer(lines) == lines[0] + "\n" + Buffer(lines[1..])
  {
    assert lines == [lines[0]] + lines[1..];
    BufferAppend([lines[0]], lines[1..]);
    assert [lines[0]][..0] == [];
  }

  lemma LinesStep(b: string, i: nat)
    requires i <= |b| && LineEnd(b, i) < |b|
    ensures Lines(b, i) == [Trim(b[i..LineEnd(b, i)])] + Lines(b, LineEnd(b, i) + 1)
  {
    hide Trim, LineEnd, Unterminated;
  }

  lemma FirstNewline(b: string, i: nat, first: string, rest: string)
    requires i <= |b| && '\n' !in first && b[i..] == first + "\n" + rest
    ensures LineEnd(b, i) == i + |first| < |b|
    ensures b[i..i + |first|] == first && b[i + |first| + 1..] == rest
  {
    var s := first + "\n" + rest;
    assert |s| == |b| - i;
    assert forall k :: i <= k < |b| ==> b[k] == s[k - i];
    LineEndIs(b, i, i + |first|);
  }

  lemma {:induction false} LineEndIs(b: string, i: nat, end: nat)
    requires i <= end < |b| && b[end] == '\n' && forall k :: i <= k < end ==> b[k] != '\n'
    ensures LineEnd(b, i) == end
    decreases end - i
  {
    if i < end { LineEndIs(b, i + 1, end); }
  }
}
