/**
 The message framing that `dbuf_getmsg` must implement, stated on a flat byte
 string: CR or LF ends a line, leading spaces are stripped, empty lines are
 ignored, and each message is cut to READBUFSIZE - 2 bytes
 (section 2.3.1 of RFC 1459).
 */
module Framing {
  import Seqs

  newtype byte = x: int | 0 <= x < 256

  const LF: byte := 10
  const CR: byte := 13
  const SPACE: byte := 32

  const READBUFSIZE := 16384
  const MAX_MESSAGE := READBUFSIZE - 2

  predicate IsEol(c: byte) {
    c == CR || c == LF
  }

  predicate IsBlank(c: byte) {
    IsEol(c) || c == SPACE
  }

  // ---------------------------------------------------------------------
  // Reference definition: split, strip, drop, cut.

  /** Index of the first CR or LF, or |s| when there is none. */
  function FirstEol(s: seq<byte>): (i: nat)
    ensures i <= |s|
    ensures forall k | 0 <= k < i :: !IsEol(s[k])
    ensures i < |s| ==> IsEol(s[i])
  {
    if s == [] || IsEol(s[0]) then 0 else 1 + FirstEol(s[1..])
  }

  /** The terminated lines of s, without their terminators. */
  function Lines(s: seq<byte>): seq<seq<byte>>
    decreases |s|
  {
    var i := FirstEol(s);
    if i == |s| then [] else [s[..i]] + Lines(s[i + 1..])
  }

  /** What follows the last CR or LF. */
  function Tail(s: seq<byte>): seq<byte>
    decreases |s|
  {
    var i := FirstEol(s);
    if i == |s| then s else Tail(s[i + 1..])
  }

  function StripSpaces(s: seq<byte>): seq<byte> {
    if s == [] || s[0] != SPACE then s else StripSpaces(s[1..])
  }

  function CutLine(line: seq<byte>): seq<byte> {
    if |line| > MAX_MESSAGE then line[..MAX_MESSAGE] else line
  }

  function DeliverLine(line: seq<byte>): seq<seq<byte>> {
    var l := StripSpaces(line);
    if l == [] then [] else [CutLine(l)]
  }

  function Deliver(lines: seq<seq<byte>>): seq<seq<byte>> {
    if lines == [] then [] else DeliverLine(lines[0]) + Deliver(lines[1..])
  }

  /** The messages a byte stream carries. */
  function Messages(s: seq<byte>): seq<seq<byte>> {
    Deliver(Lines(s))
  }

  /** The unterminated rest of a byte stream. */
  function Residue(s: seq<byte>): seq<byte> {
    StripSpaces(Tail(s))
  }

  // ---------------------------------------------------------------------
  // One extraction, as the three-phase scan performs it.

  /** Number of leading CR, LF and space bytes. */
  function LeadingBlanks(s: seq<byte>): (n: nat)
    ensures n <= |s|
    ensures forall k | 0 <= k < n :: IsBlank(s[k])
    ensures n < |s| ==> !IsBlank(s[n])
  {
    if s == [] || !IsBlank(s[0]) then 0 else 1 + LeadingBlanks(s[1..])
  }

  /** An extracted message ([] when no complete line is buffered) and the number of bytes dropped. */
  datatype Extraction = Extraction(msg: seq<byte>, dropped: nat) {
    function Delivered(): seq<seq<byte>> {
      if msg == [] then [] else [msg]
    }
  }

  function Extract(s: seq<byte>): (x: Extraction)
    ensures x.dropped <= |s|
    ensures |x.msg| <= MAX_MESSAGE
  {
    var a := LeadingBlanks(s);
    var rest := s[a..];
    var e := FirstEol(rest);
    if e == |rest| then Extraction([], a)
    else Extraction(CutLine(rest[..e]), a + e + LeadingBlanks(rest[e..]))
  }

  /** Two counts with the defining properties of LeadingBlanks are equal. */
  lemma LeadingBlanksUnique(s: seq<byte>, n: nat)
    requires n <= |s|
    requires forall k | 0 <= k < n :: IsBlank(s[k])
    requires n < |s| ==> !IsBlank(s[n])
    ensures LeadingBlanks(s) == n
  {
  }

  lemma FirstEolUnique(s: seq<byte>, n: nat)
    requires n <= |s|
    requires forall k | 0 <= k < n :: !IsEol(s[k])
    requires n < |s| ==> IsEol(s[n])
    ensures FirstEol(s) == n
  {
  }

  // ---------------------------------------------------------------------
  // The scan: phase 0 skips blanks before the line, phase 1 copies the line,
  // phase 2 skips blanks behind it.

  /** The scan's counters after pos bytes of s. */
  ghost predicate Scanned(s: seq<byte>, pos: nat, phase: nat, line: nat, empty: nat) {
    && pos == line + empty <= |s|
    && match phase
       case 0 => line == 0 && forall k | 0 <= k < pos :: IsBlank(s[k])
       case 1 => line > 0 && LeadingBlanks(s) == empty && FirstEol(s[empty..]) >= line
       case 2 =>
         var a := LeadingBlanks(s);
         && a + line < pos && line > 0
         && FirstEol(s[a..]) == line
         && (forall k | a + line <= k < pos :: IsBlank(s[k]))
       case _ => false
  }

  lemma ScanStep(s: seq<byte>, pos: nat, phase: nat, line: nat, empty: nat)
    requires Scanned(s, pos, phase, line, empty) && pos < |s|
    ensures phase <= 2 && pos == line + empty
    ensures var c := s[pos];
      if IsEol(c) || (c == SPACE && phase != 1) then
        Scanned(s, pos + 1, if phase == 1 then 2 else phase, line, empty + 1)
      else if phase < 2 then
        Scanned(s, pos + 1, 1, line + 1, empty)
      else
        ScanDone(s, pos, line)
  {
    var a := LeadingBlanks(s);
    match phase
    case 0 =>
      if !IsBlank(s[pos]) {
        LeadingBlanksUnique(s, pos);
      }
    case 1 =>
      assert s[empty..][line] == s[pos];
    case 2 =>
      if !IsBlank(s[pos]) {
        ScanDoneAt(s, pos, line);
      }
  }

  /** The scan found a complete line, and the next byte to keep is at pos. */
  ghost predicate ScanDone(s: seq<byte>, pos: nat, line: nat) {
    var a := LeadingBlanks(s);
    0 < line <= pos - a && pos <= |s| && Extract(s) == Extraction(CutLine(s[a..a + line]), pos)
  }

  lemma ScanDoneAt(s: seq<byte>, pos: nat, line: nat)
    requires exists empty: nat :: Scanned(s, pos, 2, line, empty)
    requires pos < |s| ==> !IsBlank(s[pos])
    ensures ScanDone(s, pos, line)
  {
    hide LeadingBlanks, FirstEol, CutLine;
    var a := LeadingBlanks(s);
    var e := a + line;
    Seqs.DropDrop(s, a, line);
    assert s[a..][..line] == s[a..e];
    LeadingBlanksUnique(s[e..], pos - e);
  }

  /** At the end of the buffer: phase 2 has a message, the other phases only drop the blanks. */
  lemma ScanEnd(s: seq<byte>, phase: nat, line: nat, empty: nat)
    requires Scanned(s, |s|, phase, line, empty)
    ensures line + empty == |s|
    ensures phase == 2 ==> ScanDone(s, |s|, line)
    ensures phase != 2 ==> Extract(s) == Extraction([], empty)
  {
    match phase
    case 0 => LeadingBlanksUnique(s, |s|);
    case 1 =>
    case 2 => ScanDoneAt(s, |s|, line);
  }

  /** How many bytes of a line of the given length are copied out. */
  function Kept(line: nat): nat {
    if line < MAX_MESSAGE then line else MAX_MESSAGE
  }

  /** The bytes copied out are the first ones of the line. */
  ghost predicate Copied(s: seq<byte>, phase: nat, line: nat, copy: seq<byte>) {
    |copy| == Kept(line) && (phase > 0 ==> LeadingBlanks(s) + line <= |s| && copy <= s[LeadingBlanks(s)..])
  }

  lemma CopiedLine(s: seq<byte>, line: nat, copy: seq<byte>)
    requires Copied(s, 2, line, copy)
    ensures var a := LeadingBlanks(s); copy == CutLine(s[a..a + line])
  {
    hide LeadingBlanks;
  }

  lemma CopiedStill(s: seq<byte>, line: nat, copy: seq<byte>, phase: nat)
    requires Copied(s, phase, line, copy)
    ensures phase == 1 ==> Copied(s, 2, line, copy)
  {
  }

  lemma ScanStart(s: seq<byte>, copy: seq<byte>)
    requires copy == []
    ensures Scanned(s, 0, 0, 0, 0) && Copied(s, 0, 0, copy)
  {
  }

  lemma CopyStep(s: seq<byte>, pos: nat, phase: nat, line: nat, empty: nat, copy: seq<byte>)
    requires Scanned(s, pos, phase, line, empty) && pos < |s| && phase < 2
    requires Copied(s, phase, line, copy)
    requires if phase == 0 then !IsBlank(s[pos]) else !IsEol(s[pos])
    ensures Copied(s, 1, line + 1, copy + if line < MAX_MESSAGE then [s[pos]] else [])
  {
    ScanStep(s, pos, phase, line, empty);
    var a := LeadingBlanks(s);
    assert s[a..][line] == s[pos];
  }

  // ---------------------------------------------------------------------
  // Extraction agrees with the reference definition, whatever follows.

  /** Stream s carries the messages out and then whatever stream rest carries. */
  ghost predicate Yields(s: seq<byte>, out: seq<seq<byte>>, rest: seq<byte>) {
    && Messages(s) == out + Messages(rest)
    && Residue(s) == Residue(rest)
  }

  lemma YieldsTrans(s: seq<byte>, out: seq<seq<byte>>, mid: seq<byte>, out': seq<seq<byte>>, rest: seq<byte>)
    requires Yields(s, out, mid) && Yields(mid, out', rest)
    ensures Yields(s, out + out', rest)
  {
    hide Messages, Residue;
    Seqs.Assoc(out, out', Messages(rest));
  }

  lemma {:induction false} DropBlank(s: seq<byte>)
    requires s != [] && IsBlank(s[0])
    ensures Yields(s, [], s[1..])
  {
    if s[0] == SPACE {
      var i := FirstEol(s[1..]);
      if i < |s[1..]| {
        assert s[..i + 1][1..] == s[1..][..i];
        assert s[i + 2..] == s[1..][i + 1..];
        assert StripSpaces(s[..i + 1]) == StripSpaces(s[1..][..i]);
      }
    } else {
      assert Lines(s) == [s[..0]] + Lines(s[1..]);
      assert DeliverLine(s[..0]) == [];
    }
  }

  lemma {:induction false} DropBlanks(s: seq<byte>, n: nat)
    requires n <= |s|
    requires forall k | 0 <= k < n :: IsBlank(s[k])
    ensures Yields(s, [], s[n..])
  {
    hide Messages, Residue;
    if n > 0 {
      DropBlank(s);
      DropBlanks(s[1..], n - 1);
      Seqs.DropDrop(s, 1, n - 1);
    }
  }

  /** A first line that starts with a non-blank byte is delivered cut, and nothing else changes. */
  lemma {:induction false} TakeLine(s: seq<byte>, e: nat)
    requires 0 < e < |s| && FirstEol(s) == e && s[0] != SPACE
    ensures Yields(s, [CutLine(s[..e])], s[e..])
  {
    DropBlank(s[e..]);
    Seqs.DropDrop(s, e, 1);
    assert StripSpaces(s[..e]) == s[..e];
  }

  /** A buffered first line stays the first line when bytes t follow the buffer s. */
  lemma TakeBufferedLine(s: seq<byte>, t: seq<byte>, e: nat)
    requires 0 < e < |s| && FirstEol(s) == e && s[0] != SPACE
    ensures Yields(s + t, [CutLine(s[..e])], s[e + LeadingBlanks(s[e..])..] + t)
  {
    hide Yields, LeadingBlanks, FirstEol, CutLine;
    var u := s + t;
    FirstEolUnique(u, e);
    TakeLine(u, e);
    Seqs.TakeConcat(s, t, e);
    Seqs.DropConcat(s, t, e);
    var b := LeadingBlanks(s[e..]);
    DropBlanks(u[e..], b);
    Seqs.DropDrop(u, e, b);
    Seqs.DropConcat(s, t, e + b);
    Seqs.EmptyUnits([CutLine(s[..e])]);
    YieldsTrans(u, [CutLine(s[..e])], u[e..], [], s[e + b..] + t);
  }

  /** The buffer keeps its meaning: whatever bytes t arrive later, an extraction
      takes exactly the first message off the stream, or none. */
  lemma ExtractPreservesStream(s: seq<byte>, t: seq<byte>)
    ensures var x := Extract(s);
      Yields(s + t, x.Delivered(), s[x.dropped..] + t)
  {
    hide Yields, LeadingBlanks, FirstEol;
    var a := LeadingBlanks(s);
    var r := s[a..];
    DropBlanks(s + t, a);
    Seqs.DropConcat(s, t, a);
    var line := FirstEol(r);
    if line < |r| {
      TakeBufferedLine(r, t, line);
      var b := line + LeadingBlanks(r[line..]);
      Seqs.DropDrop(s, a, b);
      Seqs.EmptyUnits([CutLine(r[..line])]);
      YieldsTrans(s + t, [], r + t, [CutLine(r[..line])], s[a + b..] + t);
    }
  }

  /** No message is extracted exactly when none is complete; what is left is then the residue. */
  lemma ExtractNothing(s: seq<byte>)
    ensures Extract(s).msg == [] <==> Messages(s) == []
    ensures Extract(s).msg == [] ==> s[Extract(s).dropped..] == Residue(s)
  {
    hide LeadingBlanks, FirstEol;
    var x := Extract(s);
    assert Yields(s, x.Delivered(), s[x.dropped..]) by {
      ExtractPreservesStream(s, []);
      Seqs.EmptyUnits(s);
      Seqs.EmptyUnits(s[x.dropped..]);
    }
    if x.msg == [] {
      NoLine(s[x.dropped..]);
    }
  }

  lemma NoLine(s: seq<byte>)
    requires FirstEol(s) == |s| && (s != [] ==> s[0] != SPACE)
    ensures Messages(s) == [] && Residue(s) == s
  {
  }

  // ---------------------------------------------------------------------
  // Whole runs: any interleaving of arrivals and extractions.

  datatype Op = Put(chunk: seq<byte>) | GetMsg

  /** What the run delivered, and what it left buffered. */
  datatype Outcome = Outcome(delivered: seq<seq<byte>>, buffer: seq<byte>)

  function Run(buffer: seq<byte>, ops: seq<Op>): Outcome
    decreases ops
  {
    if ops == [] then Outcome([], buffer)
    else
      match ops[0]
      case Put(chunk) => Run(buffer + chunk, ops[1..])
      case GetMsg =>
        var x := Extract(buffer);
        var later := Run(buffer[x.dropped..], ops[1..]);
        Outcome(x.Delivered() + later.delivered, later.buffer)
  }

  /** Everything that arrived, in order. */
  function Arrived(ops: seq<Op>): seq<byte> {
    if ops == [] then []
    else (match ops[0] case Put(chunk) => chunk case GetMsg => []) + Arrived(ops[1..])
  }

  /** At every moment, the delivered messages followed by those still buffered are the
      messages of the whole stream, and the unterminated rest is still there. */
  lemma {:induction false} RunConservesStream(buffer: seq<byte>, ops: seq<Op>)
    ensures var r := Run(buffer, ops);
      Yields(buffer + Arrived(ops), r.delivered, r.buffer)
    decreases ops
  {
    if ops == [] {
      Seqs.EmptyUnits(buffer);
      Seqs.EmptyUnits(Messages(buffer));
    } else {
      RunConservesStreamStep(buffer, ops);
    }
  }

  lemma {:induction false} RunConservesStreamStep(buffer: seq<byte>, ops: seq<Op>)
    requires ops != []
    ensures var r := Run(buffer, ops);
      Yields(buffer + Arrived(ops), r.delivered, r.buffer)
    decreases ops, 0
  {
    hide Yields;
    var later := Arrived(ops[1..]);
    match ops[0]
    case Put(chunk) =>
      Seqs.Assoc(buffer, chunk, later);
      RunConservesStream(buffer + chunk, ops[1..]);
    case GetMsg =>
      Seqs.EmptyUnits(later);
      ExtractPreservesStream(buffer, later);
      var x := Extract(buffer);
      var rest := buffer[x.dropped..];
      RunConservesStream(rest, ops[1..]);
      var r := Run(rest, ops[1..]);
      YieldsTrans(buffer + later, x.Delivered(), rest + later, r.delivered, r.buffer);
  }

  /** Delivery does not matter: once an extraction comes back empty, the messages delivered so
      far are those of the concatenated stream, and the buffer holds its unterminated tail. */
  lemma DeliveryDoesNotMatter(ops: seq<Op>)
    requires Extract(Run([], ops).buffer).msg == []
    ensures Run([], ops + [GetMsg]) == Outcome(Messages(Arrived(ops)), Residue(Arrived(ops)))
  {
    hide Messages, Residue, Extract;
    RunConservesStream([], ops);
    Seqs.EmptyUnits(Arrived(ops));
    var r := Run([], ops);
    ExtractNothing(r.buffer);
    RunSplit([], ops, [GetMsg]);
    Seqs.EmptyUnits(r.delivered);
  }

  lemma {:induction false} RunSplit(buffer: seq<byte>, first: seq<Op>, second: seq<Op>)
    ensures var a := Run(buffer, first);
      var b := Run(a.buffer, second);
      Run(buffer, first + second) == Outcome(a.delivered + b.delivered, b.buffer)
    decreases first
  {
    hide Extract;
    if first == [] {
      Seqs.EmptyUnits(second);
      Seqs.EmptyUnits(Run(buffer, second).delivered);
    } else {
      Seqs.DropConcat(first, second, 1);
      match first[0]
      case Put(chunk) => RunSplit(buffer + chunk, first[1..], second);
      case GetMsg =>
        var x := Extract(buffer);
        var rest := buffer[x.dropped..];
        RunSplit(rest, first[1..], second);
        var a := Run(rest, first[1..]);
        Seqs.Assoc(x.Delivered(), a.delivered, Run(a.buffer, second).delivered);
    }
  }

  // ---------------------------------------------------------------------
  // What messages look like.

  /** Not empty, no space in front, no CR or LF inside, and short enough. */
  predicate IsMessage(m: seq<byte>) {
    0 < |m| <= MAX_MESSAGE && m[0] != 32 && 10 !in m && 13 !in m
  }

  /** Every message of a stream is one. */
  lemma {:induction false} MessagesAreMessages(s: seq<byte>)
    ensures forall m | m in Messages(s) :: IsMessage(m)
    decreases |s|
  {
    var i := FirstEol(s);
    if i < |s| {
      MessagesAreMessages(s[i + 1..]);
      var lines := [s[..i]] + Lines(s[i + 1..]);
      assert Messages(s) == DeliverLine(lines[0]) + Deliver(lines[1..]);
      assert lines[1..] == Lines(s[i + 1..]);
      LineIsMessage(s[..i]);
    }
  }

  lemma LineIsMessage(line: seq<byte>)
    requires 10 !in line && 13 !in line
    ensures forall m | m in DeliverLine(line) :: IsMessage(m)
  {
    StripKeepsOut(line);
    var l := StripSpaces(line);
    if l != [] {
      assert CutLine(l) <= l;
    }
  }

  lemma {:induction false} StripKeepsOut(s: seq<byte>)
    ensures forall c | c in StripSpaces(s) :: c in s
    ensures StripSpaces(s) != [] ==> StripSpaces(s)[0] != 32
  {
    if s != [] && s[0] == SPACE {
      StripKeepsOut(s[1..]);
    }
  }

  /** A line with a CR or an LF behind it is a message, the first 16382 bytes of it if it is longer, whatever
      follows. */
  lemma LineIsDelivered(line: seq<byte>, eol: byte, rest: seq<byte>)
    requires line != [] && line[0] != 32 && 10 !in line && 13 !in line && eol in {10, 13}
    ensures Messages(line + [eol] + rest) == [if |line| <= 16382 then line else line[..16382]] + Messages(rest)
  {
    var s := line + [eol] + rest;
    FirstEolUnique(s, |line|);
    assert s[..|line|] == line && s[|line| + 1..] == rest;
    var lines := [line] + Lines(rest);
    assert lines[1..] == Lines(rest);
  }

  /** The same bytes, except that CR may stand for LF and LF for CR. */
  predicate SameButEols(s: seq<byte>, t: seq<byte>) {
    |s| == |t| && forall i | 0 <= i < |s| :: s[i] == t[i] || {s[i], t[i]} <= {10, 13}
  }

  /** It does not matter which of the two ends a line. */
  lemma {:induction false} EolsAreTheSame(s: seq<byte>, t: seq<byte>)
    requires SameButEols(s, t)
    ensures Messages(s) == Messages(t) && Residue(s) == Residue(t)
  {
    SameLines(s, t);
  }

  lemma {:induction false} SameLines(s: seq<byte>, t: seq<byte>)
    requires SameButEols(s, t)
    ensures Lines(s) == Lines(t) && Tail(s) == Tail(t)
    decreases |s|
  {
    var i := FirstEol(s);
    SameEols(s, t);
    FirstEolUnique(t, i);
    assert s[..i] == t[..i];
    if i < |s| {
      SameLines(s[i + 1..], t[i + 1..]);
    } else {
      assert s == t;
    }
  }

  lemma SameEols(s: seq<byte>, t: seq<byte>)
    requires SameButEols(s, t)
    ensures forall k | 0 <= k < |s| :: (IsEol(s[k]) <==> IsEol(t[k])) && (!IsEol(s[k]) ==> s[k] == t[k])
  {
    forall k | 0 <= k < |s|
      ensures (IsEol(s[k]) <==> IsEol(t[k])) && (!IsEol(s[k]) ==> s[k] == t[k])
    {
      if s[k] != t[k] {
        assert s[k] in {s[k], t[k]} && t[k] in {s[k], t[k]};
      }
    }
  }
}
