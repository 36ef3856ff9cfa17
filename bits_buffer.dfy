/**
 * The 128-character buffer `szBits` that signal2bsm builds its token lists
 * in, with the three C library calls it uses on it: strlen, memset and
 * strcat_s.  The text of the buffer is everything before its first NUL.
 */
module Buffer {

  /** sizeof(szBits). */
  const SIZE: nat := 128

  /** The position of the first NUL in `s`. */
  function NulIndex(s: seq<char>): (r: nat)
    requires '\0' in s
    ensures r < |s| && s[r] == '\0'
    ensures forall k :: 0 <= k < r ==> s[k] != '\0'
  {
    if s[0] == '\0' then 0 else 1 + NulIndex(s[1..])
  }

  /** A NUL at `i` with none before it is the first NUL. */
  lemma FirstNul(s: seq<char>, i: nat)
    requires i < |s| && s[i] == '\0'
    requires forall k :: 0 <= k < i ==> s[k] != '\0'
    ensures NulIndex(s) == i
  {
  }

  /** Filling a prefix shorter than the text with a non-NUL character keeps the terminator where it was. */
  lemma FillText(before: seq<char>, after: seq<char>, value: char, count: nat)
    requires '\0' in before && count <= NulIndex(before) && value != '\0'
    requires after == seq(count, _ => value) + before[count..]
    ensures '\0' in after && NulIndex(after) == NulIndex(before)
    ensures after[..NulIndex(after)] == seq(count, _ => value) + before[count..NulIndex(before)]
  {
    var n := NulIndex(before);
    assert after[n] == before[n];
    forall k | 0 <= k < n
      ensures after[k] != '\0'
    {
      if k >= count {
        assert after[k] == before[k];
      }
    }
    FirstNul(after, n);
    assert after[..n] == seq(count, _ => value) + before[count..n];
  }

  /** A fill that leaves a NUL, or writes one, leaves the buffer terminated. */
  lemma FillKeepsNul(before: seq<char>, after: seq<char>, value: char, count: nat)
    requires '\0' in before && count <= |before|
    requires value == '\0' || '\0' in before[count..]
    requires after == seq(count, _ => value) + before[count..]
    ensures '\0' in after
  {
    if value == '\0' && count > 0 {
      assert after[0] == '\0';
    } else if count == 0 {
      assert after == before;
    } else {
      var j :| 0 <= j < |before| - count && before[count..][j] == '\0';
      assert after[count + j] == '\0';
    }
  }

  class CharBuffer {
    const data: array<char>

    ghost predicate Valid()
      reads this, data
    {
      data.Length == SIZE && '\0' in data[..]
    }

    /** The C string the buffer holds. */
    function Text(): (r: string)
      requires Valid()
      reads this, data
      ensures |r| < SIZE && '\0' !in r
    {
      data[..NulIndex(data[..])]
    }

    /** `char szBits[128] = { 0 };` */
    constructor ()
      ensures Valid() && Text() == [] && fresh(data)
    {
      data := new char[SIZE](_ => '\0');
      new;
      FirstNul(data[..], 0);
    }

    /** strlen(szBits): scans for the terminator. */
    method Strlen() returns (n: nat)
      requires Valid()
      ensures n == |Text()|
    {
      n := 0;
      while data[n] != '\0'
        invariant n <= NulIndex(data[..])
        decreases NulIndex(data[..]) - n
      {
        n := n + 1;
      }
    }

    /**
     * memset(szBits, value, count): the first `count` characters become
     * `value`.  The terminator the later strlen needs must survive.
     */
    method Memset(value: char, count: nat)
      requires Valid() && count <= SIZE
      requires value == '\0' || '\0' in data[count..]
      modifies data
      ensures Valid()
      ensures data[..] == seq(count, _ => value) + old(data[count..])
      ensures value != '\0' && count <= old(|Text()|) ==> Text() == seq(count, _ => value) + old(Text())[count..]
    {
      var i := 0;
      while i < count
        invariant i <= count
        invariant forall k :: 0 <= k < i ==> data[k] == value
        invariant forall k :: i <= k < data.Length ==> data[k] == old(data[k])
      {
        data[i] := value;
        i := i + 1;
      }
      assert data[..] == seq(count, _ => value) + old(data[count..]);
      FillKeepsNul(old(data[..]), data[..], value, count);
      if value != '\0' && count <= old(|Text()|) {
        ghost var before := old(data[..]);
        FillText(before, data[..], value, count);
        assert old(Text()) == before[..NulIndex(before)];
      }
    }

    /** strcat_s(szBits, sizeof(szBits), t), for a `t` that fits with its terminator. */
    method Strcat(t: string)
      requires Valid() && '\0' !in t
      requires |Text()| + |t| < SIZE
      modifies data
      ensures Valid() && Text() == old(Text()) + t
    {
      var n := Strlen();
      ghost var before := data[..n];
      var j := 0;
      while j < |t|
        invariant j <= |t|
        invariant data[..n] == before
        invariant data[n..n + j] == t[..j]
      {
        data[n + j] := t[j];
        j := j + 1;
        assert data[n..n + j] == data[n..n + j - 1] + [t[j - 1]];
      }
      data[n + |t|] := '\0';
      assert data[..n + |t|] == before + t by {
        assert data[..n + |t|] == data[..n] + data[n..n + |t|];
      }
      forall k | 0 <= k < n + |t|
        ensures data[k] != '\0'
      {
        if k < n {
          assert data[k] == before[k];
        } else {
          assert data[k] == t[k - n];
        }
      }
      FirstNul(data[..], n + |t|);
    }
  }
}
