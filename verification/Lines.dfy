/** Bytes and line reading: what `bufio.Reader.ReadBytes('\n')` returns, and how
    a file splits into newline-terminated lines. */
module Lines {
  newtype byte = x: int | 0 <= x < 256
  type Bytes = seq<byte>

  const LF: byte := 10

  /** One past the first LF at or after `pos`, or the end of the input. */
  function LineEnd(b: Bytes, pos: nat): (e: nat)
    requires pos <= |b|
    ensures pos <= e <= |b|
    ensures pos < |b| ==> pos < e
    ensures forall i :: pos <= i < e - 1 ==> b[i] != LF
    ensures e < |b| ==> e > 0 && b[e - 1] == LF
    decreases |b| - pos
  {
    if pos == |b| then pos
    else if b[pos] == LF then pos + 1
    else LineEnd(b, pos + 1)
  }

  /** A position at which a line of `b` begins. */
  predicate IsLineStart(b: Bytes, o: int) {
    0 <= o < |b| && (o == 0 || b[o - 1] == LF)
  }

  /** A JSONL line as the writer marshals it: one LF, and it is the last byte. */
  predicate IsLine(l: Bytes) {
    |l| > 0 && l[|l| - 1] == LF && forall i :: 0 <= i < |l| - 1 ==> l[i] != LF
  }

  /** `line` stands in `content` at byte offset `off`. */
  predicate LineAt(content: Bytes, off: nat, line: Bytes) {
    off + |line| <= |content| && content[off..off + |line|] == line
  }

  /** Reading a line from the offset where one stands returns exactly that line. */
  lemma LineEndOfLineAt(content: Bytes, off: nat, line: Bytes)
    requires IsLine(line) && LineAt(content, off, line)
    ensures content[off..LineEnd(content, off)] == line
  {
    assert forall i :: 0 <= i < |line| ==> line[i] == content[off + i];
    LineEndIs(content, off, off + |line|);
  }

  /** The end of a line is where its first LF says it is. */
  lemma LineEndIs(b: Bytes, pos: nat, e: nat)
    requires pos < e <= |b| && b[e - 1] == LF
    requires forall i :: pos <= i < e - 1 ==> b[i] != LF
    ensures LineEnd(b, pos) == e
    decreases e - pos
  {
    if b[pos] != LF { LineEndIs(b, pos + 1, e); }
  }

  /** Appending to a file leaves every line already in it where it was. */
  lemma LineAtExtends(content: Bytes, longer: Bytes, off: nat, line: Bytes)
    requires LineAt(content, off, line) && content <= longer
    ensures LineAt(longer, off, line)
  {
    assert longer[off..off + |line|] == content[off..off + |line|];
  }
}
