/** getArguments (index.js:3-17): the declared parameter names of a task's
    function, read off the function's source text. The runtime's
    `Function.prototype.toString` is not modelled; a function is given by the
    text it would return. */
module Arguments {
  import opened Common

  /** What a task slot holds: a function, given by its source text, or any
      other JavaScript value (the `typeof func !== 'function'` case). */
  datatype Callable = Function(source: string) | NotCallable

  /** ECMAScript LineTerminator: what `.` in a regular expression does not match. */
  predicate IsLineTerminator(c: char)
  {
    c == '\n' || c == '\r' || c == '\U{2028}' || c == '\U{2029}'
  }

  /** ECMAScript WhiteSpace or LineTerminator: what `String.prototype.trim` strips. */
  predicate IsWhiteSpace(c: char)
  {
    || IsLineTerminator(c)
    || c == '\t' || c == '\U{000B}' || c == '\U{000C}' || c == ' '
    || c == '\U{00A0}' || c == '\U{FEFF}' || c == '\U{1680}'
    || ('\U{2000}' <= c <= '\U{200A}')
    || c == '\U{202F}' || c == '\U{205F}' || c == '\U{3000}'
  }

  // ---------------------------------------------------------------------
  // str.match(/\(([^)]*)\)/)   (index.js:8-11)
  // ---------------------------------------------------------------------

  /** Some `(` is followed, somewhere later, by a `)`: the regular expression matches. */
  ghost predicate HasParenPair(s: string)
  {
    exists i, j :: 0 <= i < j < |s| && s[i] == '(' && s[j] == ')'
  }

  /** The first position at or after `i` holding `c`, or `|s|` when there is none. */
  function Find(s: string, c: char, i: nat): (k: nat)
    requires i <= |s|
    ensures i <= k <= |s|
    ensures k < |s| ==> s[k] == c
    ensures forall j :: i <= j < k ==> s[j] != c
    decreases |s| - i
  {
    if i == |s| || s[i] == c then i else Find(s, c, i + 1)
  }

  /** `v` is the capture group of a match whose `(` is at `i`: that `(` is the
      first one in `s` and `v` runs up to the first `)` after it. */
  ghost predicate GroupAt(s: string, i: int, v: string)
  {
    && 0 <= i && i + |v| + 2 <= |s|
    && (forall j :: 0 <= j < i ==> s[j] != '(') && s[i] == '('
    && s[i + 1..i + 1 + |v|] == v && ')' !in v
    && s[i + 1 + |v|] == ')'
  }

  /** The capture group `matched[1]`, or None when `match` returns null. */
  function ParenGroup(s: string): (r: Option<string>)
    ensures r.None? <==> !HasParenPair(s)
    ensures r.Some? ==> GroupAt(s, Find(s, '(', 0), r.value)
  {
    var i := Find(s, '(', 0);
    if i == |s| then None
    else
      var j := Find(s, ')', i + 1);
      if j == |s| then
        assert !HasParenPair(s) by { NoCloseAfterFirstOpen(s, i); }
        None
      else
        var v := s[i + 1..j];
        assert ')' !in v by {
          forall k | 0 <= k < |v| ensures v[k] != ')' { assert v[k] == s[i + 1 + k]; }
        }
        Some(v)
  }

  lemma NoCloseAfterFirstOpen(s: string, i: int)
    requires 0 <= i < |s| && s[i] == '('
    requires forall a :: 0 <= a < i ==> s[a] != '('
    requires forall b :: i < b < |s| ==> s[b] != ')'
    ensures !HasParenPair(s)
  {
  }

  // ---------------------------------------------------------------------
  // matched[1].split(',')   (index.js:14)
  // ---------------------------------------------------------------------

  /** `String.prototype.split` on a one-character separator. */
  function Split(s: string, sep: char): (r: seq<string>)
    ensures |r| == multiset(s)[sep] + 1
    ensures forall k :: 0 <= k < |r| ==> sep !in r[k]
    ensures Join(r, [sep]) == s
    decreases |s|
  {
    var i := Find(s, sep, 0);
    if i == |s| then
      assert sep !in s;
      [s]
    else
      var rest := Split(s[i + 1..], sep);
      SplitAt(s, i);
      JoinCons(s[..i], rest, [sep]);
      assert sep !in s[..i] by {
        forall k | 0 <= k < i ensures s[..i][k] != sep { assert s[..i][k] == s[k]; }
      }
      [s[..i]] + rest
  }

  lemma SplitAt(s: string, i: int)
    requires 0 <= i < |s|
    ensures s == s[..i] + [s[i]] + s[i + 1..]
    ensures multiset(s)[s[i]] == multiset(s[..i])[s[i]] + 1 + multiset(s[i + 1..])[s[i]]
  {
    assert s == s[..i] + [s[i]] + s[i + 1..];
    assert multiset(s) == multiset(s[..i]) + multiset{s[i]} + multiset(s[i + 1..]);
  }

  lemma JoinCons(a: string, rest: seq<string>, sep: string)
    requires |rest| > 0
    ensures Join([a] + rest, sep) == a + sep + Join(rest, sep)
  {
    assert ([a] + rest)[1..] == rest;
  }

  // ---------------------------------------------------------------------
  // arg.replace(<comment pattern>, '')   (index.js:15)
  // ---------------------------------------------------------------------

  // A comment closer (star, slash) starts at position `m` of `t`.
  ghost predicate ClosesAt(t: string, m: int)
  {
    0 <= m && m + 1 < |t| && t[m] == '*' && t[m + 1] == '/'
  }

  // No line terminator among the first `k` characters of `t`.
  ghost predicate NoLineBreakBefore(t: string, k: int)
    requires k <= |t|
  {
    forall j :: 0 <= j < k ==> !IsLineTerminator(t[j])
  }

  // Where the lazy `.*?` stops in the text `t` that follows a comment
  // opener: at the earliest comment closer with no line terminator before
  // it, if there is one.
  function CommentEnd(t: string): (k: Option<nat>)
    ensures k.Some? ==> ClosesAt(t, k.value) && NoLineBreakBefore(t, k.value)
    ensures k.Some? ==> forall m :: 0 <= m < k.value ==> !ClosesAt(t, m)
    ensures k.None? ==> forall m :: ClosesAt(t, m) ==> !NoLineBreakBefore(t, m)
    decreases |t|
  {
    if |t| < 2 then None
    else if t[0] == '*' && t[1] == '/' then Some(0)
    else if IsLineTerminator(t[0]) then None
    else
      var rest := CommentEnd(t[1..]);
      assert forall m :: 1 <= m ==> (ClosesAt(t, m) <==> ClosesAt(t[1..], m - 1));
      assert forall k :: 1 <= k <= |t| ==>
        (NoLineBreakBefore(t, k) <==> NoLineBreakBefore(t[1..], k - 1));
      if rest.Some? then Some(rest.value + 1) else None
  }

  // A comment opener (slash, star) starts at position `m` of `s`.
  ghost predicate OpensAt(s: string, m: int)
  {
    0 <= m && m + 1 < |s| && s[m] == '/' && s[m + 1] == '*'
  }

  /** `arg.replace(/\/\*.*?\*\//g, '')`: scanning from the front, each
      comment opener that has a closer on the same line is dropped together
      with that closer and the text between them, and scanning resumes after
      the closer. */
  function StripComments(s: string): string
    decreases |s|
  {
    if |s| < 2 then s
    else if s[0] == '/' && s[1] == '*' && CommentEnd(s[2..]).Some? then
      StripComments(s[CommentEnd(s[2..]).value + 4..])
    else
      [s[0]] + StripComments(s[1..])
  }

  /** What the replacement leaves keeps the order of the text. */
  lemma {:induction false} StripOrder(s: string)
    ensures Subsequence(StripComments(s), s)
    decreases |s|
  {
    if |s| < 2 {
      SubsequenceSlice(s, 0, |s|);
      assert s[0..|s|] == s;
    } else if s[0] == '/' && s[1] == '*' && CommentEnd(s[2..]).Some? {
      var n := CommentEnd(s[2..]).value + 4;
      StripOrder(s[n..]);
      SubsequenceSkip(StripComments(s[n..]), s[..n], s[n..]);
      assert s[..n] + s[n..] == s;
    } else {
      StripOrder(s[1..]);
      SubsequenceKeep([s[0]], StripComments(s[1..]), s[1..]);
      assert [s[0]] + s[1..] == s;
    }
  }

  /** The comment closer right after `c` ends the comment that an opener
      starts in front of `c`, when `c` holds neither a closer nor a line
      break. */
  lemma ClosedAfter(c: string, y: string)
    requires forall j :: 0 <= j < |c| - 1 ==> !(c[j] == '*' && c[j + 1] == '/')
    requires forall j :: 0 <= j < |c| ==> !IsLineTerminator(c[j])
    ensures CommentEnd(c + "*/" + y) == Some(|c|)
  {
    var t := c + "*/" + y;
    assert ClosesAt(t, |c|);
    assert NoLineBreakBefore(t, |c|);
  }

  /** A complete one-line block comment at the front is removed, and the
      replacement goes on after its closer. */
  lemma CommentFirst(c: string, y: string)
    requires forall j :: 0 <= j < |c| - 1 ==> !(c[j] == '*' && c[j + 1] == '/')
    requires forall j :: 0 <= j < |c| ==> !IsLineTerminator(c[j])
    ensures StripComments("/*" + c + "*/" + y) == StripComments(y)
  {
    var s := "/*" + c + "*/" + y;
    assert s[2..] == c + "*/" + y;
    ClosedAfter(c, y);
    assert s[|c| + 4..] == y;
  }

  /** A complete one-line block comment is removed, with nothing else: the
      text in front of it (which opens no comment) is kept and the
      replacement goes on after the closer. */
  lemma StripCommentOut(x: string, c: string, y: string)
    requires forall m :: 0 <= m < |x| - 1 ==> !(x[m] == '/' && x[m + 1] == '*')
    requires forall j :: 0 <= j < |c| - 1 ==> !(c[j] == '*' && c[j + 1] == '/')
    requires forall j :: 0 <= j < |c| ==> !IsLineTerminator(c[j])
    ensures StripComments(x + "/*" + c + "*/" + y) == x + StripComments(y)
  {
    var w := "/*" + c + "*/" + y;
    NoOpenerBefore(x, w);
    KeepPlain(x, w);
    CommentFirst(c, y);
    Regroup(x, c, y);
  }

  lemma Regroup(x: string, c: string, y: string)
    ensures x + ("/*" + c + "*/" + y) == x + "/*" + c + "*/" + y
  {
  }

  /** No comment opener starts inside `x` when `x` holds none and what
      follows starts with a slash. */
  lemma NoOpenerBefore(x: string, w: string)
    requires forall m :: 0 <= m < |x| - 1 ==> !(x[m] == '/' && x[m + 1] == '*')
    requires |w| > 0 && w[0] == '/'
    ensures forall m :: 0 <= m < |x| ==> !OpensAt(x + w, m)
  {
    forall m | 0 <= m < |x| ensures !OpensAt(x + w, m) {
      if m + 1 < |x| {
        assert (x + w)[m] == x[m] && (x + w)[m + 1] == x[m + 1];
      } else {
        assert (x + w)[m + 1] == w[0];
      }
    }
  }

  /** Text in front that opens no comment is kept as it is. */
  lemma {:induction false} KeepPlain(x: string, w: string)
    requires forall m :: 0 <= m < |x| ==> !OpensAt(x + w, m)
    ensures StripComments(x + w) == x + StripComments(w)
    decreases |x|
  {
    if |x| > 0 {
      var s := x + w;
      assert !OpensAt(s, 0);
      assert s[1..] == x[1..] + w;
      forall m | 0 <= m < |x| - 1 ensures !OpensAt(x[1..] + w, m) {
        assert !OpensAt(s, m + 1);
      }
      KeepPlain(x[1..], w);
      var rest := StripComments(w);
      if |s| >= 2 {
        assert !(s[0] == '/' && s[1] == '*');
        assert StripComments(s) == [x[0]] + StripComments(x[1..] + w);
      } else {
        assert w == [] && s == x && x[1..] == [];
        assert StripComments(s) == [x[0]] + StripComments(x[1..] + w);
      }
      ConsAppend(x, rest);
    } else {
      assert x + w == w;
    }
  }

  // ---------------------------------------------------------------------
  // .trim()   (index.js:15)
  // ---------------------------------------------------------------------

  /** No white space at either end. */
  predicate IsTrimmed(s: string)
  {
    s == [] || (!IsWhiteSpace(s[0]) && !IsWhiteSpace(s[|s| - 1]))
  }

  /** The first position at or after `i` that does not hold white space. */
  function SkipSpace(s: string, i: nat): (k: nat)
    requires i <= |s|
    ensures i <= k <= |s|
    ensures forall j :: i <= j < k ==> IsWhiteSpace(s[j])
    ensures k == |s| || !IsWhiteSpace(s[k])
    decreases |s| - i
  {
    if i < |s| && IsWhiteSpace(s[i]) then SkipSpace(s, i + 1) else i
  }

  /** The end of `s[lo..j]` once its trailing white space is cut off. */
  function SkipSpaceBack(s: string, lo: nat, j: nat): (k: nat)
    requires lo <= j <= |s|
    ensures lo <= k <= j
    ensures forall m :: k <= m < j ==> IsWhiteSpace(s[m])
    ensures k == lo || !IsWhiteSpace(s[k - 1])
  {
    if j > lo && IsWhiteSpace(s[j - 1]) then SkipSpaceBack(s, lo, j - 1) else j
  }

  /** `r` is a stretch of `s` with only white space before and after it. */
  ghost predicate TrimOf(s: string, r: string)
  {
    exists a, b :: 0 <= a <= b <= |s| && r == s[a..b]
      && (forall j :: 0 <= j < a ==> IsWhiteSpace(s[j]))
      && (forall j :: b <= j < |s| ==> IsWhiteSpace(s[j]))
  }

  /** `String.prototype.trim`: the stretch of `s` left once the white space
      at both ends is cut off; nothing else is removed and the order is
      kept. */
  function Trim(s: string): (r: string)
    ensures IsTrimmed(r) && TrimOf(s, r)
    ensures multiset(r) <= multiset(s)
    ensures forall c :: c in multiset(s) - multiset(r) ==> IsWhiteSpace(c)
  {
    var a := SkipSpace(s, 0);
    var b := SkipSpaceBack(s, a, |s|);
    WhiteSpaceAround(s, a, b);
    s[a..b]
  }

  /** Cutting white space off both ends of `s` leaves `s[a..b]`. */
  lemma WhiteSpaceAround(s: string, a: nat, b: nat)
    requires a <= b <= |s|
    requires forall j :: 0 <= j < a ==> IsWhiteSpace(s[j])
    requires forall j :: b <= j < |s| ==> IsWhiteSpace(s[j])
    requires a == |s| || !IsWhiteSpace(s[a])
    requires b == a || !IsWhiteSpace(s[b - 1])
    ensures IsTrimmed(s[a..b])
    ensures multiset(s[a..b]) <= multiset(s)
    ensures forall c :: c in multiset(s) - multiset(s[a..b]) ==> IsWhiteSpace(c)
  {
    var front, r, back := s[..a], s[a..b], s[b..];
    assert s == front + r + back;
    assert multiset(s) == multiset(front) + multiset(r) + multiset(back);
    AllWhiteSpace(front);
    AllWhiteSpace(back);
  }

  lemma AllWhiteSpace(t: string)
    requires forall j :: 0 <= j < |t| ==> IsWhiteSpace(t[j])
    ensures forall c :: c in multiset(t) ==> IsWhiteSpace(c)
  {
    forall c | c in multiset(t) ensures IsWhiteSpace(c) {
      assert c in t;
    }
  }

  // ---------------------------------------------------------------------
  // getArguments   (index.js:3-17)
  // ---------------------------------------------------------------------

  /** One piece of the parameter list with its comments and white space
      removed: trimmed, and made only of characters of the piece. */
  function Clean(piece: string): (n: string)
    ensures IsTrimmed(n)
    ensures multiset(n) <= multiset(piece)
  {
    var stripped := StripComments(piece);
    StripOrder(piece);
    SubsequenceMultiset(stripped, piece);
    Trim(stripped)
  }

  /** Cleaning keeps the order of what it keeps, and a piece that holds no
      comment opener is just trimmed. */
  lemma CleanOrder(piece: string)
    ensures Subsequence(Clean(piece), piece)
    ensures (forall m :: !OpensAt(piece, m)) ==> TrimOf(piece, Clean(piece))
  {
    var stripped := StripComments(piece);
    StripOrder(piece);
    if forall m :: !OpensAt(piece, m) {
      assert piece + "" == piece;
      KeepPlain(piece, "");
    }
    var a, b :| 0 <= a <= b <= |stripped| && Trim(stripped) == stripped[a..b];
    SubsequenceSlice(stripped, a, b);
    SubsequenceTrans(Trim(stripped), stripped, piece);
  }

  /** `.map(Clean).filter(arg => arg !== '')`. */
  function Names(pieces: seq<string>): (r: seq<string>)
    ensures |r| <= |pieces|
    ensures forall n :: n in r <==> n != "" && exists p :: p in pieces && n == Clean(p)
  {
    if pieces == [] then []
    else
      var n := Clean(pieces[0]);
      var rest := Names(pieces[1..]);
      assert forall p :: p in pieces <==> p == pieces[0] || p in pieces[1..];
      if n == "" then rest else [n] + rest
  }

  /** The names keep the order of their pieces, and a name that two pieces
      give appears twice: `Names` maps each piece on its own and joins the
      results. */
  lemma {:induction false} NamesAppend(a: seq<string>, b: seq<string>)
    ensures Names(a + b) == Names(a) + Names(b)
    decreases |a|
  {
    if a == [] {
      assert a + b == b;
    } else {
      var ab := a + b;
      assert ab[0] == a[0] && ab[1..] == a[1..] + b;
      NamesAppend(a[1..], b);
    }
  }

  /** One piece gives its cleaned text as a name, unless that is empty. */
  lemma NamesOne(p: string)
    ensures Names([p]) == if Clean(p) == "" then [] else [Clean(p)]
  {
    assert [p][1..] == [];
  }

  /** A parameter name written between two one-line comments, maybe after
      some white space, cleans to the bare name. */
  lemma CommentedPiece(lead: string, c1: string, n: string, c2: string)
    requires forall j :: 0 <= j < |lead| ==> IsWhiteSpace(lead[j])
    requires forall j :: 0 <= j < |c1| - 1 ==> !(c1[j] == '*' && c1[j + 1] == '/')
    requires forall j :: 0 <= j < |c1| ==> !IsLineTerminator(c1[j])
    requires forall j :: 0 <= j < |c2| - 1 ==> !(c2[j] == '*' && c2[j + 1] == '/')
    requires forall j :: 0 <= j < |c2| ==> !IsLineTerminator(c2[j])
    requires forall m :: 0 <= m < |n| - 1 ==> !(n[m] == '/' && n[m + 1] == '*')
    requires IsTrimmed(n)
    ensures Clean(lead + "/*" + c1 + "*/" + n + "/*" + c2 + "*/") == n
  {
    var tail := n + "/*" + c2 + "*/";
    StripCommentOut(n, c2, "");
    assert n + "/*" + c2 + "*/" + "" == tail;
    assert StripComments("") == "";
    assert StripComments(tail) == n;
    StripCommentOut(lead, c1, tail);
    Regroup4(lead, c1, n, c2);
    var whole := lead + "/*" + c1 + "*/" + n + "/*" + c2 + "*/";
    assert StripComments(whole) == lead + n;
    TrimAfterSpace(lead, n);
    assert Clean(whole) == Trim(StripComments(whole));
  }

  lemma Regroup4(lead: string, c1: string, n: string, c2: string)
    ensures lead + "/*" + c1 + "*/" + (n + "/*" + c2 + "*/")
         == lead + "/*" + c1 + "*/" + n + "/*" + c2 + "*/"
  {
  }

  /** White space in front of trimmed text is all that trimming removes. */
  lemma TrimAfterSpace(lead: string, n: string)
    requires forall j :: 0 <= j < |lead| ==> IsWhiteSpace(lead[j])
    requires IsTrimmed(n)
    ensures Trim(lead + n) == n
  {
    var s := lead + n;
    var a := SkipSpace(s, 0);
    if n != [] {
      assert s[|lead|] == n[0];
      assert s[|s| - 1] == n[|n| - 1];
    }
    assert a == |lead|;
    assert SkipSpaceBack(s, a, |s|) == |s|;
    assert s[|lead|..] == n;
  }

  /** A comment ending in several stars is removed whole. */
  lemma StarredComment()
    ensures Clean("/*test***/") == ""
  {
    StripCommentOut("", "test**", "");
    assert "" + "/*" + "test**" + "*/" + "" == "/*test***/";
  }

  /** The declared parameter names, or the error getArguments throws: a
      value that is not a function, or source text without a parenthesised
      part. */
  function GetArguments(f: Callable): (r: Result<seq<string>>)
    ensures f.NotCallable? ==> r == Err(NotAFunction)
    ensures f.Function? ==> (r.Err? <==> !HasParenPair(f.source))
    ensures r.Err? ==> r.error == NotAFunction || r.error == NoArgumentList
  {
    match f
    case NotCallable => Err(NotAFunction)
    case Function(source) =>
      match ParenGroup(source)
      case None => Err(NoArgumentList)
      case Some(group) => Ok(Names(Split(group, ',')))
  }

  /** The names getArguments returns come from the first parenthesised part:
      there are at most one more of them than it has commas, and each is
      non-empty, trimmed, and free of commas and closing parentheses. */
  lemma GetArgumentsNames(f: Callable)
    requires GetArguments(f).Ok?
    ensures f.Function? && ParenGroup(f.source).Some?
    ensures |GetArguments(f).value| <= multiset(ParenGroup(f.source).value)[','] + 1
    ensures forall n :: n in GetArguments(f).value ==>
      n != "" && IsTrimmed(n) && ',' !in n && ')' !in n
  {
    var group := ParenGroup(f.source).value;
    var pieces := Split(group, ',');
    NamesAvoid(pieces, group, Names(pieces));
  }

  /** Every cleaned name lies inside one comma-free piece of `group`. */
  lemma NamesAvoid(pieces: seq<string>, group: string, names: seq<string>)
    requires pieces == Split(group, ',') && names == Names(pieces)
    requires ')' !in group
    ensures forall n :: n in names ==> ',' !in n && ')' !in n
  {
    forall n | n in names ensures ',' !in n && ')' !in n {
      var p :| p in pieces && n == Clean(p);
      JoinPartIncluded(pieces, p, ',');
      assert ',' !in p;
      assert multiset(n) <= multiset(p) <= multiset(group);
      assert ',' !in multiset(n) && ')' !in multiset(n);
    }
  }

  lemma {:induction false} JoinPartIncluded(parts: seq<string>, p: string, sep: char)
    requires p in parts
    ensures multiset(p) <= multiset(Join(parts, [sep]))
  {
    if |parts| > 1 {
      assert Join(parts, [sep]) == parts[0] + [sep] + Join(parts[1..], [sep]);
      if p != parts[0] {
        JoinPartIncluded(parts[1..], p, sep);
      }
    }
  }
}
