/** Reading a string out of the tracee's memory, one machine word at a time. */
module ReadStrings {
  import opened FdTables
  import opened Options

  const WORD := 8

  type Byte = c: char | (c as int) < 256

  /** The readable part of the tracee's memory. */
  type Memory = map<int, Byte>

  /** A word can be read if all its bytes can. */
  function Peek(mem: Memory, addr: int): Option<seq<Byte>> {
    if Readable(mem, addr, WORD) then Some(seq(WORD, k requires 0 <= k < WORD && addr + k in mem => mem[addr + k]))
    else None
  }

  predicate Readable(mem: Memory, base: int, count: nat) {
    forall a :: base <= a < base + count ==> a in mem
  }

  // ---- what is to be read ----

  /** How many words it takes to cover maxLen characters. */
  function WordCount(maxLen: nat): nat {
    (maxLen + WORD - 1) / WORD
  }

  predicate NulAt(mem: Memory, addr: int) {
    addr in mem && mem[addr] == '\0'
  }

  /** The offset of the first terminator, or the limit if there is none below it. */
  function FirstNul(mem: Memory, base: int, limit: nat): (p: nat)
    ensures p <= limit
    ensures forall a :: base <= a < base + p ==> !NulAt(mem, a)
    ensures p < limit ==> NulAt(mem, base + p)
  {
    if limit == 0 then 0
    else
      var p := FirstNul(mem, base, limit - 1);
      if p < limit - 1 then p
      else if NulAt(mem, base + limit - 1) then limit - 1
      else limit
  }

  /** The words up to the one that holds the first terminator, or all of them. */
  function WordsNeeded(mem: Memory, base: int, maxLen: nat): nat {
    var limit := WORD * WordCount(maxLen);
    var p := FirstNul(mem, base, limit);
    if p < limit then p / WORD + 1 else WordCount(maxLen)
  }

  predicate Succeeds(mem: Memory, base: int, maxLen: nat) {
    Readable(mem, base, WORD * WordsNeeded(mem, base, maxLen))
  }

  /** The buffer after a successful read: the needed words, then what was there before;
      a string that does not end in time is cut off at the last character. */
  function Filled(mem: Memory, base: int, buffer: seq<char>, maxLen: nat): (r: seq<char>)
    requires 0 < maxLen && WORD * WordCount(maxLen) <= |buffer|
    requires Succeeds(mem, base, maxLen)
    ensures |r| == |buffer|
  {
    var needed := WORD * WordsNeeded(mem, base, maxLen);
    var copied := Overlaid(mem, base, buffer, needed);
    if FirstNul(mem, base, WORD * WordCount(maxLen)) < WORD * WordCount(maxLen) then copied
    else copied[maxLen - 1 := '\0']
  }

  function Overlaid(mem: Memory, base: int, buffer: seq<char>, count: nat): (r: seq<char>)
    requires count <= |buffer| && Readable(mem, base, count)
    ensures |r| == |buffer|
    ensures forall j :: 0 <= j < |r| ==> r[j] == if j < count then mem[base + j] else buffer[j]
  {
    seq(|buffer|, j requires 0 <= j < |buffer| => if j < count then mem[base + j] else buffer[j])
  }

  // ---- the code ----

  method ReadString(mem: Memory, base: int, dest: array<char>, maxLen: nat) returns (ret: int)
    requires 0 < maxLen && WORD * WordCount(maxLen) <= dest.Length
    modifies dest
    ensures ret == 0 || ret == -1
    ensures ret == 0 <==> Succeeds(mem, base, maxLen)
    ensures ret == 0 ==> dest[..] == Filled(mem, base, old(dest[..]), maxLen)
    ensures forall j :: WORD * WordCount(maxLen) <= j < dest.Length ==> dest[j] == old(dest[j])
  {
    ghost var before := dest[..];
    ghost var limit := WORD * WordCount(maxLen);
    ghost var nul := FirstNul(mem, base, limit);
    var i := 0;
    while i * WORD < maxLen
      invariant i <= WordCount(maxLen)
      invariant Readable(mem, base, i * WORD) && i * WORD <= nul
      invariant dest[..] == Overlaid(mem, base, before, i * WORD)
    {
      assert i < WordCount(maxLen);
      var data := Peek(mem, base + i * WORD);
      if data == None {
        assert i < WordsNeeded(mem, base, maxLen);
        return -1;
      }
      forall j | 0 <= j < WORD {
        dest[i * WORD + j] := data.value[j];
      }
      assert Readable(mem, base, (i + 1) * WORD);
      assert dest[..] == Overlaid(mem, base, before, (i + 1) * WORD);
      var j := 0;
      while j < WORD
        invariant 0 <= j <= WORD
        invariant i * WORD + j <= nul
      {
        if dest[i * WORD + j] == '\0' {
          assert NulAt(mem, base + (i * WORD + j));
          assert nul == i * WORD + j && WordsNeeded(mem, base, maxLen) == i + 1;
          return 0;
        }
        assert dest[i * WORD + j] == mem[base + (i * WORD + j)];
        j := j + 1;
      }
      i := i + 1;
    }
    dest[maxLen - 1] := '\0';
    return 0;
  }

  // ---- what the caller gets ----

  /** The tracee's string, cut to fewer than maxLen characters. */
  function TraceeString(mem: Memory, base: int, maxLen: nat): CString
    requires 0 < maxLen
    requires Readable(mem, base, FirstNul(mem, base, maxLen))
  {
    var p := FirstNul(mem, base, maxLen);
    var len := if p < maxLen then p else maxLen - 1;
    var s := seq(len, j requires 0 <= j < len => mem[base + j]);
    assert '\0' !in s by {
      forall j | 0 <= j < len ensures s[j] != '\0' {
        assert !NulAt(mem, base + j);
      }
    }
    s
  }

  lemma WholeWords(maxLen: nat)
    requires maxLen % WORD == 0
    ensures WORD * WordCount(maxLen) == maxLen
  {}

  /** The needed words cover the string and its terminator. */
  lemma NeededCovers(mem: Memory, base: int, maxLen: nat)
    requires maxLen % WORD == 0
    ensures var p := FirstNul(mem, base, maxLen);
            if p < maxLen then p < WORD * WordsNeeded(mem, base, maxLen) <= maxLen
            else WORD * WordsNeeded(mem, base, maxLen) == maxLen
  {
    WholeWords(maxLen);
  }

  /** There is a terminator at p, below the limit, and all up to the end of its word can be read. */
  predicate EndsReadably(mem: Memory, base: int, maxLen: nat, p: nat) {
    p < maxLen && NulAt(mem, base + p) && Readable(mem, base, 8 * (p / 8 + 1))
  }

  /** A read succeeds exactly if everything up to the limit can be read, or a terminator and
      all up to the end of its word. */
  lemma SucceedsExactly(mem: Memory, base: int, maxLen: nat)
    requires 0 < maxLen && maxLen % 8 == 0
    ensures Succeeds(mem, base, maxLen) <==>
      Readable(mem, base, maxLen) || exists p: nat :: EndsReadably(mem, base, maxLen, p)
  {
    WholeWords(maxLen);
    NeededCovers(mem, base, maxLen);
    var q := FirstNul(mem, base, maxLen);
    if q < maxLen {
      assert NulAt(mem, base + q);
      assert WORD * WordsNeeded(mem, base, maxLen) == 8 * (q / 8 + 1);
      assert Succeeds(mem, base, maxLen) <==> EndsReadably(mem, base, maxLen, q);
      forall p: nat | EndsReadably(mem, base, maxLen, p) ensures EndsReadably(mem, base, maxLen, q) {
        assert q <= p;
      }
    }
  }

  /** The buffer holds exactly the tracee's string cut to maxLen - 1 characters, whatever it
      held before, if maxLen is a whole number of words. */
  lemma FilledHoldsString(mem: Memory, base: int, buffer: seq<char>, maxLen: nat)
    requires 0 < maxLen && maxLen % WORD == 0 && maxLen <= |buffer|
    requires Succeeds(mem, base, maxLen)
    ensures WORD * WordCount(maxLen) == maxLen
    ensures Readable(mem, base, FirstNul(mem, base, maxLen))
    ensures CStr(Filled(mem, base, buffer, maxLen)) == TraceeString(mem, base, maxLen)
  {
    WholeWords(maxLen);
    NeededCovers(mem, base, maxLen);
    var s := TraceeString(mem, base, maxLen);
    var r := Filled(mem, base, buffer, maxLen);
    FilledAt(mem, base, buffer, maxLen);
    hide Filled, TraceeString, WordCount, FirstNul;
    assert r[..|s|] == s;
    CStrOfPrefix(r, s);
  }

  lemma FilledAt(mem: Memory, base: int, buffer: seq<char>, maxLen: nat)
    requires 0 < maxLen && maxLen % WORD == 0 && maxLen <= |buffer|
    requires Succeeds(mem, base, maxLen)
    requires WORD * WordCount(maxLen) == maxLen
    requires Readable(mem, base, FirstNul(mem, base, maxLen))
    ensures var s, r := TraceeString(mem, base, maxLen), Filled(mem, base, buffer, maxLen);
            && |s| < |r| && r[|s|] == '\0'
            && forall j :: 0 <= j < |s| ==> r[j] == s[j]
  {
    NeededCovers(mem, base, maxLen);
    hide WordCount, WordsNeeded;
  }
}
