/** Where s6-log cuts its input into files. */
module Splitting {
  import opened LogStore

  /** byte_rchr(s, n, '\n'): the last newline among the first n bytes, or n. */
  function LastNewline(s: seq<Byte>, n: nat): (r: nat)
    requires n <= |s|
    ensures r <= n && (r < n ==> s[r] == NEWLINE)
    ensures forall p | r < p < n :: s[p] != NEWLINE
    ensures r == n ==> forall p | 0 <= p < n :: s[p] != NEWLINE
  {
    if n == 0 then 0
    else if s[n - 1] == NEWLINE then n - 1
    else var r := LastNewline(s, n - 1); if r == n - 1 then n else r
  }

  /** How many bytes to write next, in 32-bit arithmetic. */
  function Chunk(s: seq<Byte>, b: nat, size: nat, tolerance: nat): (n: nat)
    requires b < size && s != []
    ensures 1 <= n <= |s|
    ensures FitsWord(s, size, tolerance) ==> b + n <= size
    ensures FitsWord(s, size, tolerance) ==>
              var room := if |s| < size - b then |s| else size - b;
              if room + b + tolerance >= size && exists p :: 0 <= p < room && s[p] == NEWLINE
              then s[n - 1] == NEWLINE && forall p | n <= p < room :: s[p] != NEWLINE
              else n == room
  {
    var room := if (|s| + b) % UINT_WRAP >= size then size - b else |s|;
    if (room + b + tolerance) % UINT_WRAP >= size then
      var r := LastNewline(s, room);
      if r < room then r + 1 else room
    else room
  }

  /** A newline at p leaves no more than "tolerance" bytes before the size limit. */
  predicate Late(p: nat, size: nat, tolerance: nat) {
    p + 1 + tolerance >= size
  }

  predicate NoLateNewline(data: seq<Byte>, size: nat, tolerance: nat) {
    forall p | 0 <= p < |data| :: data[p] == NEWLINE ==> !Late(p, size, tolerance)
  }

  /** Bytes after the last newline. */
  function Tail(data: seq<Byte>): nat {
    var r := LastNewline(data, |data|);
    if r == |data| then |data| else |data| - r - 1
  }

  /** The sums do not wrap for any block the program can hold in memory. */
  predicate FitsWord(s: seq<Byte>, size: nat, tolerance: nat) {
    |s| + size + tolerance < UINT_WRAP
  }

  /** A full write either ends the file on a newline or leaves no late newline in it. */
  lemma ChunkKeepsLines(data: seq<Byte>, s: seq<Byte>, size: nat, tolerance: nat)
    requires s != [] && |data| < size && FitsWord(s, size, tolerance)
    requires NoLateNewline(data, size, tolerance)
    ensures 1 <= Chunk(s, |data|, size, tolerance) <= |s|
    ensures |data| + Chunk(s, |data|, size, tolerance) <= size
    ensures var after := data + s[..Chunk(s, |data|, size, tolerance)];
            NoLateNewline(after, size, tolerance) || (s[|after| - |data| - 1] == NEWLINE && |after| + tolerance >= size)
  {
    var b := |data|;
    var room := if |s| + b >= size then size - b else |s|;
    assert (|s| + b) % UINT_WRAP == |s| + b && (room + b + tolerance) % UINT_WRAP == room + b + tolerance;
    var n := Chunk(s, b, size, tolerance);
    var after := data + s[..n];
    if room + b + tolerance >= size {
      var r := LastNewline(s, room);
      if r == room || n + b + tolerance < size {
        forall p | 0 <= p < |after| && after[p] == NEWLINE ensures !Late(p, size, tolerance) {
          if p >= b {
            assert after[p] == s[p - b];
          }
        }
      }
    }
  }

  /** So a file that reaches the size limit without ending in a newline either has
      no newline at all or ends with more than "tolerance" bytes of one line. */
  lemma FullFileSplitsLongLine(data: seq<Byte>, size: nat, tolerance: nat)
    requires |data| >= size && NoLateNewline(data, size, tolerance)
    ensures Tail(data) == |data| || Tail(data) > tolerance
  {
  }
}
