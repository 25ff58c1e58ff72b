/** Order-preserving selection on sequences, shared by the list operations. */
module Seqs {

  /** a is obtained from b by deleting elements, the rest keeping their order. */
  predicate IsSubseq<T(==)>(a: seq<T>, b: seq<T>)
    decreases |b|
  {
    a == [] || (b != [] && ((a[0] == b[0] && IsSubseq(a[1..], b[1..])) || IsSubseq(a, b[1..])))
  }

  lemma {:induction false} SubseqRefl<T>(a: seq<T>)
    ensures IsSubseq(a, a)
    decreases |a|
  {
    if a != [] {
      SubseqRefl(a[1..]);
    }
  }

  lemma {:induction false} SubseqOfEmpty<T>(b: seq<T>)
    ensures IsSubseq([], b)
  {
  }

  lemma {:induction false} SubseqTrans<T>(a: seq<T>, b: seq<T>, c: seq<T>)
    requires IsSubseq(a, b) && IsSubseq(b, c)
    ensures IsSubseq(a, c)
    decreases |c|
  {
    if a != [] {
      if IsSubseq(b, c[1..]) {
        SubseqTrans(a, b, c[1..]);
      } else if a[0] == b[0] && IsSubseq(a[1..], b[1..]) {
        SubseqTrans(a[1..], b[1..], c[1..]);
      } else {
        SubseqTrans(a, b[1..], c[1..]);
      }
    }
  }

  /** Prepending the same element on both sides keeps the relation. */
  lemma {:induction false} SubseqCons<T>(x: T, a: seq<T>, b: seq<T>)
    requires IsSubseq(a, b)
    ensures IsSubseq([x] + a, [x] + b)
    ensures IsSubseq(a, [x] + b)
  {
    assert ([x] + a)[1..] == a && ([x] + b)[1..] == b;
  }

  /** Removing the element at index i leaves a subsequence. */
  lemma {:induction false} SubseqRemoveAt<T>(s: seq<T>, i: nat)
    requires i < |s|
    ensures IsSubseq(s[..i] + s[i+1..], s)
    decreases i
  {
    if i == 0 {
      assert s[..0] + s[1..] == s[1..];
      SubseqRefl(s[1..]);
    } else {
      SubseqRemoveAt(s[1..], i - 1);
      assert s[1..][..i-1] + s[1..][i..] == (s[..i] + s[i+1..])[1..];
      SubseqCons(s[0], s[1..][..i-1] + s[1..][i..], s[1..]);
      assert [s[0]] + (s[..i] + s[i+1..])[1..] == s[..i] + s[i+1..];
      assert [s[0]] + s[1..] == s;
    }
  }

  /** Appending an element to the larger sequence, or to both, keeps the relation. */
  lemma {:induction false} AppendSubseq<T>(a: seq<T>, b: seq<T>, x: T)
    requires IsSubseq(a, b)
    ensures IsSubseq(a, b + [x]) && IsSubseq(a + [x], b + [x])
    decreases |b|
  {
    if b == [] {
      assert a == [];
      assert [x][1..] == [];
    } else {
      assert (b + [x])[1..] == b[1..] + [x];
      if a == [] {
        AppendSubseq(a, b[1..], x);
        assert a + [x] == [x];
      } else {
        assert (a + [x])[1..] == a[1..] + [x];
        if a[0] == b[0] && IsSubseq(a[1..], b[1..]) {
          AppendSubseq(a[1..], b[1..], x);
        } else {
          AppendSubseq(a, b[1..], x);
        }
      }
    }
  }

  /** Prepending the same sequence on both sides keeps the relation. */
  lemma {:induction false} SubseqPrefixAppend<T>(p: seq<T>, a: seq<T>, b: seq<T>)
    requires IsSubseq(a, b)
    ensures IsSubseq(p + a, p + b)
    decreases |p|
  {
    if p != [] {
      SubseqPrefixAppend(p[1..], a, b);
      SubseqCons(p[0], p[1..] + a, p[1..] + b);
      assert [p[0]] + (p[1..] + a) == p + a;
      assert [p[0]] + (p[1..] + b) == p + b;
    } else {
      assert p + a == a && p + b == b;
    }
  }

  /** Every element of a subsequence is an element of the sequence. */
  lemma {:induction false} SubseqMembers<T>(a: seq<T>, b: seq<T>)
    requires IsSubseq(a, b)
    ensures forall x :: x in a ==> x in b
    decreases |b|
  {
    if a != [] {
      if a[0] == b[0] && IsSubseq(a[1..], b[1..]) {
        SubseqMembers(a[1..], b[1..]);
        assert a == [a[0]] + a[1..] && b == [b[0]] + b[1..];
      } else {
        SubseqMembers(a, b[1..]);
        assert b == [b[0]] + b[1..];
      }
    }
  }

  /** Some occurrence of x comes before some occurrence of y in s. */
  predicate Before<T(==)>(s: seq<T>, x: T, y: T) {
    exists p, q :: 0 <= p < q < |s| && s[p] == x && s[q] == y
  }

  /** Deleting elements never reverses the order of the elements that remain. */
  lemma {:induction false} SubseqKeepsBefore<T>(a: seq<T>, b: seq<T>, x: T, y: T)
    requires IsSubseq(a, b) && Before(a, x, y)
    ensures Before(b, x, y)
    decreases |b|
  {
    var p, q :| 0 <= p < q < |a| && a[p] == x && a[q] == y;
    if a[0] == b[0] && IsSubseq(a[1..], b[1..]) {
      if p == 0 {
        assert a[1..][q - 1] == y;
        SubseqMembers(a[1..], b[1..]);
        assert y in b[1..];
        var k :| 0 <= k < |b[1..]| && b[1..][k] == y;
        assert b[0] == x && b[k + 1] == y;
      } else {
        assert a[1..][p - 1] == x && a[1..][q - 1] == y;
        SubseqKeepsBefore(a[1..], b[1..], x, y);
        var p', q' :| 0 <= p' < q' < |b[1..]| && b[1..][p'] == x && b[1..][q'] == y;
        assert b[p' + 1] == x && b[q' + 1] == y;
      }
    } else {
      SubseqKeepsBefore(a, b[1..], x, y);
      var p', q' :| 0 <= p' < q' < |b[1..]| && b[1..][p'] == x && b[1..][q'] == y;
      assert b[p' + 1] == x && b[q' + 1] == y;
    }
  }

  lemma TakeOneMore<T>(s: seq<T>, i: nat)
    requires i < |s|
    ensures s[..i + 1] == s[..i] + [s[i]]
  {
  }

  lemma AppendAssoc<T>(a: seq<T>, b: seq<T>, c: seq<T>)
    ensures (a + b) + c == a + (b + c)
  {
  }

  /** Every element of a prefix is an element of the sequence. */
  lemma PrefixMembers<T>(a: seq<T>, b: seq<T>)
    requires a <= b
    ensures forall x :: x in a ==> x in b
  {
    forall x | x in a
      ensures x in b
    {
      var k :| 0 <= k < |a| && a[k] == x;
      assert b[k] == x;
    }
  }

  /** The first n elements, or all of them when there are fewer. */
  function Take<T>(s: seq<T>, n: int): (r: seq<T>)
    ensures |r| == if n <= 0 then 0 else if n < |s| then n else |s|
    ensures r <= s
  {
    if n <= 0 then [] else if n < |s| then s[..n] else s
  }
}
