/** Vocabulary shared by every part of the orchestrator: the failure-carrying
    wrappers, the reserved completion-signal name, the errors the library
    throws and a few sequence helpers standing for JavaScript built-ins. */
module Common {

  datatype Option<+T> = None | Some(value: T)

  /** A computation that either returns a value or throws one of the errors below. */
  datatype Result<+T> = Ok(value: T) | Err(error: Error)

  /** A computation that either returns normally or throws. */
  datatype Outcome = Pass | Fail(error: Error)

  /** The one dependency name that is never looked up as a task by the graph
      code (index.js:51, index.js:65, index.js:94, index.js:173, index.js:220). */
  const Callback: string := "callback"

  /** The errors thrown by index.js, one constructor per `new Error(...)`. */
  datatype Error =
    | NotAFunction                          // index.js:5
    | NoArgumentList                        // index.js:10
    | NotFound(name: string)                // index.js:52
    | CircularReference(path: seq<string>)  // index.js:72
    | MissingDependency(name: string)       // index.js:100

  /** `Array.prototype.join`: the parts with `sep` between consecutive ones. */
  function Join(parts: seq<string>, sep: string): string
  {
    if |parts| == 0 then ""
    else if |parts| == 1 then parts[0]
    else parts[0] + sep + Join(parts[1..], sep)
  }

  /** The text of the thrown `Error` object. */
  function Message(e: Error): string
  {
    match e
    case NotAFunction => "It is not a function"
    case NoArgumentList => "Something went wrong with arguments"
    case NotFound(name) => "\"" + name + "\" is not found"
    case CircularReference(path) => "Found circular reference: " + Join(path, " > ")
    case MissingDependency(name) => "Unable to find dependency: " + name
  }

  /** No element occurs twice. */
  predicate Distinct<T(==)>(s: seq<T>)
  {
    forall i, j :: 0 <= i < j < |s| ==> s[i] != s[j]
  }

  /** `Array.prototype.indexOf` / `String.prototype.indexOf` for one element:
      the first position of `x`, or -1. */
  function IndexOf<T(==)>(s: seq<T>, x: T): (i: int)
    ensures -1 <= i
    ensures i == -1 <==> x !in s
    ensures 0 <= i ==> i < |s| && s[i] == x && x !in s[..i]
  {
    if |s| == 0 then -1
    else if s[0] == x then 0
    else
      var j := IndexOf(s[1..], x);
      if j == -1 then -1
      else
        assert s[..j + 1] == [s[0]] + s[1..][..j];
        j + 1
  }

  /** `Array.prototype.splice(IndexOf(s, x), 1)` after a successful `indexOf`:
      `s` without its first occurrence of `x`; `s` itself when `x` is absent. */
  function RemoveFirst<T(==)>(s: seq<T>, x: T): (r: seq<T>)
    ensures x !in s ==> r == s
    ensures x in s ==> |r| == |s| - 1
    ensures x in s ==> s == r[..IndexOf(s, x)] + [x] + r[IndexOf(s, x)..]
  {
    var i := IndexOf(s, x);
    if i == -1 then s
    else
      var r := s[..i] + s[i + 1..];
      assert r[..i] == s[..i] && r[i..] == s[i + 1..];
      assert s == s[..i] + [x] + s[i + 1..];
      r
  }

  /** Removing the first occurrence of `x` takes exactly one `x` away. */
  lemma RemoveFirstCount<T>(s: seq<T>, x: T)
    requires x in s
    ensures multiset(RemoveFirst(s, x)) == multiset(s) - multiset{x}
  {
    var r := RemoveFirst(s, x);
    var i := IndexOf(s, x);
    assert s == r[..i] + [x] + r[i..];
    assert r == r[..i] + r[i..];
  }

  lemma RemoveFirstMembers<T>(s: seq<T>, x: T, y: T)
    ensures y in RemoveFirst(s, x) ==> y in s
    ensures y in s && y != x ==> y in RemoveFirst(s, x)
  {
    if x in s {
      var r := RemoveFirst(s, x);
      var i := IndexOf(s, x);
      assert s == r[..i] + [x] + r[i..];
      assert y in s <==> y in r[..i] || y == x || y in r[i..];
      assert r == r[..i] + r[i..];
    }
  }

  /** Removing the first occurrence of `x` keeps the order of the rest. */
  lemma RemoveFirstOrder<T>(s: seq<T>, x: T)
    ensures Subsequence(RemoveFirst(s, x), s)
  {
    if x in s {
      DropAt(s, IndexOf(s, x));
    } else {
      SubsequenceSlice(s, 0, |s|);
      assert s[0..|s|] == s;
    }
  }

  /** Leaving one element out keeps the order of the rest. */
  lemma {:induction false} DropAt<T>(s: seq<T>, i: int)
    requires 0 <= i < |s|
    ensures Subsequence(s[..i] + s[i + 1..], s)
    decreases i
  {
    var t := s[..i] + s[i + 1..];
    if i == 0 {
      assert t == s[1..];
      SubsequenceSlice(s[1..], 0, |s| - 1);
      assert s[1..][0..|s| - 1] == s[1..];
    } else {
      DropAt(s[1..], i - 1);
      assert t[0] == s[0];
      assert t[1..] == s[1..][..i - 1] + s[1..][i..];
    }
  }

  lemma DistinctRemoveFirst<T>(s: seq<T>, x: T)
    requires Distinct(s)
    ensures Distinct(RemoveFirst(s, x))
    ensures x !in RemoveFirst(s, x)
  {
    if x in s {
      var i := IndexOf(s, x);
      var r := RemoveFirst(s, x);
      assert r == s[..i] + s[i + 1..];
      forall a, b | 0 <= a < b < |r| ensures r[a] != r[b] {
        var a' := if a < i then a else a + 1;
        var b' := if b < i then b else b + 1;
        assert r[a] == s[a'];
        assert r[b] == s[b'];
      }
      forall k | 0 <= k < |r| ensures r[k] != x {
        var k' := if k < i then k else k + 1;
        assert r[k] == s[k'];
      }
    }
  }

  /** Joining two sequences without common elements keeps them distinct. */
  lemma DistinctConcat<T>(a: seq<T>, b: seq<T>)
    requires Distinct(a) && Distinct(b)
    requires forall x :: x in b ==> x !in a
    ensures Distinct(a + b)
  {
    var c := a + b;
    forall i, j | 0 <= i < j < |c| ensures c[i] != c[j] {
      if j >= |a| && i < |a| {
        assert c[j] == b[j - |a|] && c[j] in b;
      }
    }
  }

  /** The first position of `x` in `a + b`: its position in `a` when it is
      there, otherwise its position in `b` shifted by `|a|`. */
  lemma IndexOfAppend<T>(a: seq<T>, b: seq<T>, x: T)
    ensures x in a ==> IndexOf(a + b, x) == IndexOf(a, x)
    ensures x !in a && x in b ==> IndexOf(a + b, x) == |a| + IndexOf(b, x)
  {
    var i := IndexOf(a + b, x);
    if x in a {
      var j := IndexOf(a, x);
      assert (a + b)[j] == x;
      assert (a + b)[..i] == a[..i] by { assert i <= j; }
    } else if x in b {
      var j := IndexOf(b, x);
      assert (a + b)[|a| + j] == x;
      assert i >= |a| by { assert (a + b)[i] == x; }
      assert (a + b)[..i] == a + b[..i - |a|];
    }
  }

  /** `a` is `b` with some of its elements left out and the rest kept in
      order. */
  ghost predicate Subsequence<T>(a: seq<T>, b: seq<T>)
    decreases |b|
  {
    if |b| == 0 then |a| == 0
    else (|a| > 0 && a[0] == b[0] && Subsequence(a[1..], b[1..])) || Subsequence(a, b[1..])
  }

  lemma {:induction false} SubsequenceEmpty<T>(b: seq<T>)
    ensures Subsequence([], b)
    decreases |b|
  {
    if |b| > 0 {
      SubsequenceEmpty(b[1..]);
    }
  }

  /** Leaving out a prefix. */
  lemma {:induction false} SubsequenceSkip<T>(a: seq<T>, c: seq<T>, b: seq<T>)
    requires Subsequence(a, b)
    ensures Subsequence(a, c + b)
    decreases |c|
  {
    if |c| > 0 {
      assert (c + b)[1..] == c[1..] + b;
      SubsequenceSkip(a, c[1..], b);
      assert Subsequence(a, (c + b)[1..]);
    } else {
      assert c + b == b;
    }
  }

  /** Keeping a prefix. */
  lemma {:induction false} SubsequenceKeep<T>(c: seq<T>, a: seq<T>, b: seq<T>)
    requires Subsequence(a, b)
    ensures Subsequence(c + a, c + b)
    decreases |c|
  {
    if |c| > 0 {
      assert (c + a)[1..] == c[1..] + a && (c + b)[1..] == c[1..] + b;
      SubsequenceKeep(c[1..], a, b);
      assert (c + a)[0] == (c + b)[0] && Subsequence((c + a)[1..], (c + b)[1..]);
    } else {
      assert c + a == a && c + b == b;
    }
  }

  lemma {:induction false} SubsequenceTrans<T>(a: seq<T>, b: seq<T>, c: seq<T>)
    requires Subsequence(a, b) && Subsequence(b, c)
    ensures Subsequence(a, c)
    decreases |c|
  {
    if |c| > 0 {
      if |b| > 0 && b[0] == c[0] && Subsequence(b[1..], c[1..]) {
        if |a| > 0 && a[0] == b[0] && Subsequence(a[1..], b[1..]) {
          SubsequenceTrans(a[1..], b[1..], c[1..]);
        } else {
          SubsequenceTrans(a, b[1..], c[1..]);
        }
      } else {
        SubsequenceTrans(a, b, c[1..]);
      }
    }
  }

  /** A subsequence holds no element more often than the sequence it is taken from. */
  lemma {:induction false} SubsequenceMultiset<T>(a: seq<T>, b: seq<T>)
    requires Subsequence(a, b)
    ensures multiset(a) <= multiset(b)
    decreases |b|
  {
    if |b| > 0 {
      assert b == [b[0]] + b[1..];
      if |a| > 0 && a[0] == b[0] && Subsequence(a[1..], b[1..]) {
        SubsequenceMultiset(a[1..], b[1..]);
        assert a == [a[0]] + a[1..];
      } else {
        SubsequenceMultiset(a, b[1..]);
      }
    }
  }

  /** A slice is a subsequence. */
  lemma {:induction false} SubsequenceSlice<T>(s: seq<T>, a: int, b: int)
    requires 0 <= a <= b <= |s|
    ensures Subsequence(s[a..b], s)
    decreases |s|
  {
    if b == 0 {
      SubsequenceEmpty(s);
    } else if a > 0 {
      SubsequenceSlice(s[1..], a - 1, b - 1);
      assert s[1..][a - 1..b - 1] == s[a..b];
    } else {
      SubsequenceSlice(s[1..], 0, b - 1);
      assert s[0..b][1..] == s[1..][0..b - 1];
    }
  }

  /** The last element split off. */
  lemma Snoc<T>(s: seq<T>)
    requires |s| > 0
    ensures s == s[..|s| - 1] + [s[|s| - 1]]
    ensures multiset(s) == multiset(s[..|s| - 1]) + multiset{s[|s| - 1]}
  {
    assert s == s[..|s| - 1] + [s[|s| - 1]];
  }

  /** The first element split off, ahead of anything appended. */
  lemma ConsAppend<T>(s: seq<T>, r: seq<T>)
    requires |s| > 0
    ensures [s[0]] + (s[1..] + r) == s + r
  {
    assert s == [s[0]] + s[1..];
  }

  /** A prefix one longer is the prefix and the next element. */
  lemma PrefixSnoc<T>(s: seq<T>, i: int)
    requires 0 <= i < |s|
    ensures s[..i + 1] == s[..i] + [s[i]]
  {
  }
}
