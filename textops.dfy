/** The Python string operations `parse_json_responses` applies to a reply before
    decoding it (test.py:142-145) and `os.path.basename` (test.py:156, 194). */
module TextOps {

  /** `s` starts with `p`. */
  predicate StartsWith(s: string, p: string) {
    |p| <= |s| && s[..|p|] == p
  }

  /** `p` occurs in `s` starting at position `i`. */
  predicate OccursAt(s: string, p: string, i: nat) {
    i <= |s| && StartsWith(s[i..], p)
  }

  /** The opening markdown fence "```json" plus a newline begins at position `i`. */
  predicate OpensAt(s: string, i: nat) {
    i + 8 <= |s| && s[i] == '`' && s[i + 1] == '`' && s[i + 2] == '`' && s[i + 3] == 'j'
    && s[i + 4] == 's' && s[i + 5] == 'o' && s[i + 6] == 'n' && s[i + 7] == '\n'
  }

  /** The closing markdown fence, a newline plus "```", begins at position `i`. */
  predicate ClosesAt(s: string, i: nat) {
    i + 4 <= |s| && s[i] == '\n' && s[i + 1] == '`' && s[i + 2] == '`' && s[i + 3] == '`'
  }

  const OpenFence: string := "```json\n"
  const CloseFence: string := "\n```"

  /** `re.sub(r"```json\n|\n```", "", s)`: one left-to-right scan that, at each
      position, deletes the first alternative that matches there and resumes after it,
      and otherwise keeps the character. */
  function StripFences(s: string): (r: string)
    ensures |r| <= |s|
    decreases |s|
  {
    if s == [] then []
    else if OpensAt(s, 0) then StripFences(s[8..])
    else if ClosesAt(s, 0) then StripFences(s[4..])
    else [s[0]] + StripFences(s[1..])
  }

  /** Text in which no fence starts is left as it is. */
  lemma {:induction false} StripFencesNoFence(s: string)
    requires forall i :: 0 <= i < |s| ==> !OpensAt(s, i) && !ClosesAt(s, i)
    ensures StripFences(s) == s
  {
    if s != [] {
      assert !OpensAt(s, 0) && !ClosesAt(s, 0);
      forall i | 0 <= i < |s[1..]| ensures !OpensAt(s[1..], i) && !ClosesAt(s[1..], i) {
        assert !OpensAt(s, i + 1) && !ClosesAt(s, i + 1);
      }
      StripFencesNoFence(s[1..]);
    }
  }

  /** A body with a closing fence appended comes back without it, provided no fence
      starts inside the body. */
  lemma {:induction false} StripFencesClosing(body: string)
    requires forall i :: 0 <= i < |body| ==> !OpensAt(body + CloseFence, i) && !ClosesAt(body + CloseFence, i)
    ensures StripFences(body + CloseFence) == body
  {
    var s := body + CloseFence;
    if body == [] {
      assert s == CloseFence && ClosesAt(s, 0);
      assert !OpensAt(s, 0);
      assert s[4..] == [];
    } else {
      assert !OpensAt(s, 0) && !ClosesAt(s, 0);
      var t := body[1..] + CloseFence;
      assert s[1..] == t;
      forall i | 0 <= i < |body[1..]| ensures !OpensAt(t, i) && !ClosesAt(t, i) {
        assert !OpensAt(s, i + 1) && !ClosesAt(s, i + 1);
      }
      StripFencesClosing(body[1..]);
      assert body == [body[0]] + body[1..];
    }
  }

  /** A leading opening fence is deleted. */
  lemma StripFencesOpening(w: string)
    ensures StripFences(OpenFence + w) == StripFences(w)
  {
    var s := OpenFence + w;
    assert s[8..] == w;
    assert OpensAt(s, 0);
  }

  /** The usual reply, a JSON text wrapped in an opening and a closing fence, comes back
      as the bare JSON text when no fence starts inside it. */
  lemma StripFencesWrapped(body: string)
    requires forall i :: 0 <= i < |body| ==> !OpensAt(body + CloseFence, i) && !ClosesAt(body + CloseFence, i)
    ensures StripFences(OpenFence + body + CloseFence) == body
  {
    StripFencesClosing(body);
    StripFencesOpening(body + CloseFence);
    assert OpenFence + body + CloseFence == OpenFence + (body + CloseFence);
  }

  /** A leading closing fence is deleted. */
  lemma StripFencesCloser(w: string)
    requires !OpensAt(CloseFence + w, 0)
    ensures StripFences(CloseFence + w) == StripFences(w)
  {
    var s := CloseFence + w;
    assert s[4..] == w;
    assert ClosesAt(s, 0);
  }

  /** The tail of the example below, in which no fence starts. */
  lemma StripFencesSon(x: string)
    requires '`' !in x && '\n' !in x
    ensures StripFences("son\n" + x) == "son\n" + x
  {
    var u := "son\n" + x;
    forall i | 0 <= i < |u| ensures !OpensAt(u, i) && !ClosesAt(u, i) {
      if i != 3 {
        assert u[i] != '`' && u[i] != '\n';
      } else if i + 1 < |u| {
        assert u[i + 1] == x[0] != '`';
      }
    }
    StripFencesNoFence(u);
  }

  /** A prefix in which no fence starts is kept as it is. */
  lemma {:induction false} StripFencesPrefix(p: string, w: string)
    requires forall i :: 0 <= i < |p| ==> !OpensAt(p + w, i) && !ClosesAt(p + w, i)
    ensures StripFences(p + w) == p + StripFences(w)
  {
    if p == [] {
      assert p + w == w;
    } else {
      var q := p[1..];
      var s := p + w;
      assert s[1..] == q + w;
      forall i | 0 <= i < |q| ensures !OpensAt(q + w, i) && !ClosesAt(q + w, i) {
        assert !OpensAt(s, i + 1) && !ClosesAt(s, i + 1);
      }
      StripFencesPrefix(q, w);
      assert !OpensAt(s, 0) && !ClosesAt(s, 0);
      assert StripFences(s) == [s[0]] + StripFences(q + w);
      assert p == [p[0]] + q;
      assert [p[0]] + (q + StripFences(w)) == p + StripFences(w);
    }
  }

  /** The text "```j" is kept in front of anything that starts with a newline. */
  lemma StripFencesJ(w: string)
    requires w != [] && w[0] == '\n'
    ensures StripFences("```j" + w) == "```j" + StripFences(w)
  {
    var j := "```j";
    forall i | 0 <= i < |j| ensures !OpensAt(j + w, i) && !ClosesAt(j + w, i) {
      assert (j + w)[4] == '\n' && (j + w)[3] == 'j';
    }
    StripFencesPrefix(j, w);
  }

  lemma Associative(a: string, b: string, c: string)
    ensures (a + b) + c == a + (b + c)
  {
  }

  /** The single pass does not remove every fence: deleting one can join the text
      around it into a new opening fence, which stays. */
  lemma FenceCanSurvive(x: string)
    requires '`' !in x && '\n' !in x
    ensures StripFences("```j" + CloseFence + "son\n" + x) == OpenFence + x
  {
    var u := "son\n" + x;
    StripFencesSon(x);
    StripFencesCloser(u);
    var j := "```j";
    var w := CloseFence + u;
    StripFencesJ(w);
    Associative(j + CloseFence, "son\n", x);
    Associative(j, CloseFence, u);
    Associative(j, "son\n", x);
    assert j + "son\n" == OpenFence;
  }

  /** Characters Python's `str.isspace` accepts, which `str.strip()` removes. */
  predicate IsSpace(c: char) {
    c == ' ' || ('\t' <= c <= '\r') || ('\U{001C}' <= c <= '\U{001F}') || c == '\U{0085}' || c == '\U{00A0}'
    || c == '\U{1680}' || ('\U{2000}' <= c <= '\U{200A}') || c == '\U{2028}' || c == '\U{2029}'
    || c == '\U{202F}' || c == '\U{205F}' || c == '\U{3000}'
  }

  /** Number of whitespace characters at the start of `s`. */
  function LeadingSpaces(s: string): (n: nat)
    ensures n <= |s|
    ensures forall k :: 0 <= k < n ==> IsSpace(s[k])
    ensures n < |s| ==> !IsSpace(s[n])
  {
    if s != [] && IsSpace(s[0]) then 1 + LeadingSpaces(s[1..]) else 0
  }

  /** Number of whitespace characters at the end of `s`. */
  function TrailingSpaces(s: string): (n: nat)
    ensures n <= |s|
    ensures forall k :: |s| - n <= k < |s| ==> IsSpace(s[k])
    ensures n < |s| ==> !IsSpace(s[|s| - n - 1])
  {
    if s != [] && IsSpace(s[|s| - 1]) then 1 + TrailingSpaces(s[..|s| - 1]) else 0
  }

  /** `s.strip()`: `s` without its leading and trailing whitespace. */
  function Strip(s: string): (r: string)
    ensures |r| <= |s|
    ensures r != [] ==> !IsSpace(r[0]) && !IsSpace(r[|r| - 1])
    ensures LeadingSpaces(s) + |r| <= |s| && r == s[LeadingSpaces(s)..LeadingSpaces(s) + |r|]
    ensures forall k :: LeadingSpaces(s) + |r| <= k < |s| ==> IsSpace(s[k])
    ensures (forall k :: 0 <= k < |s| ==> IsSpace(s[k])) ==> r == []
  {
    var i := LeadingSpaces(s);
    var j := TrailingSpaces(s[i..]);
    var r := s[i..][..|s| - i - j];
    assert r == s[i..i + |r|];
    assert forall k :: i + |r| <= k < |s| ==> s[k] == s[i..][k - i];
    r
  }

  /** The position of the first occurrence of `sep` in `s` at or after `from`. */
  function FindFrom(s: string, sep: string, from: nat): (r: int)
    requires from <= |s|
    ensures r == -1 || from <= r <= |s| - |sep|
    ensures r == -1 ==> forall i :: from <= i <= |s| ==> !OccursAt(s, sep, i)
    ensures r != -1 ==> OccursAt(s, sep, r) && forall i :: from <= i < r ==> !OccursAt(s, sep, i)
    decreases |s| - from
  {
    if OccursAt(s, sep, from) then from
    else if from == |s| then -1
    else FindFrom(s, sep, from + 1)
  }

  /** `re.split(sep, s)` for a literal, non-empty separator: the pieces between the
      leftmost non-overlapping occurrences of `sep`. */
  function Split(s: string, sep: string): (parts: seq<string>)
    requires sep != []
    ensures |parts| >= 1
    decreases |s|
  {
    var i := FindFrom(s, sep, 0);
    if i == -1 then [s] else [s[..i]] + Split(s[i + |sep|..], sep)
  }

  /** `sep.join(parts)`. */
  function Join(parts: seq<string>, sep: string): string
    requires |parts| >= 1
  {
    if |parts| == 1 then parts[0] else parts[0] + sep + Join(parts[1..], sep)
  }

  /** Joining the pieces with the separator gives the text back. */
  lemma {:induction false} SplitJoin(s: string, sep: string)
    requires sep != []
    ensures Join(Split(s, sep), sep) == s
    decreases |s|
  {
    var i := FindFrom(s, sep, 0);
    if i != -1 {
      var rest := s[i + |sep|..];
      SplitJoin(rest, sep);
      JoinCons(s[..i], Split(rest, sep), sep);
      SliceAround(s, sep, i);
    }
  }

  lemma JoinCons(x: string, tail: seq<string>, sep: string)
    requires |tail| >= 1
    ensures Join([x] + tail, sep) == x + sep + Join(tail, sep)
  {
    assert ([x] + tail)[1..] == tail;
  }

  lemma SliceAround(s: string, sep: string, i: nat)
    requires OccursAt(s, sep, i)
    ensures s == s[..i] + sep + s[i + |sep|..]
  {
    assert s[i..] == s[i..][..|sep|] + s[i + |sep|..];
  }

  /** No piece contains the separator. */
  lemma {:induction false} SplitPartsFree(s: string, sep: string)
    requires sep != []
    ensures forall k, i :: 0 <= k < |Split(s, sep)| && 0 <= i <= |Split(s, sep)[k]| ==> !OccursAt(Split(s, sep)[k], sep, i)
    decreases |s|
  {
    var i := FindFrom(s, sep, 0);
    var parts := Split(s, sep);
    if i == -1 {
      assert parts == [s];
    } else {
      var rest := s[i + |sep|..];
      SplitPartsFree(rest, sep);
      assert parts[1..] == Split(rest, sep);
      forall j | 0 <= j <= i ensures !OccursAt(s[..i], sep, j) {
        OccursInPrefix(s, sep, i, j);
      }
    }
  }

  /** An occurrence in a prefix is an occurrence in the whole text. */
  lemma OccursInPrefix(s: string, sep: string, i: nat, j: nat)
    requires j <= i <= |s|
    ensures OccursAt(s[..i], sep, j) ==> OccursAt(s, sep, j)
  {
    if OccursAt(s[..i], sep, j) {
      assert s[..i][j..][..|sep|] == s[j..][..|sep|];
    }
  }

  /** The first piece ends where the separator first occurs, and the other pieces are
      the split of what follows that occurrence; there is a single piece exactly when
      the separator does not occur. */
  lemma SplitFirstCut(s: string, sep: string)
    requires sep != []
    ensures |Split(s, sep)| == 1 <==> forall i :: 0 <= i <= |s| ==> !OccursAt(s, sep, i)
    ensures |Split(s, sep)| > 1 ==>
      var n := |Split(s, sep)[0]|;
      OccursAt(s, sep, n) && (forall i :: 0 <= i < n ==> !OccursAt(s, sep, i)) &&
      Split(s, sep)[0] == s[..n] && Split(s, sep)[1..] == Split(s[n + |sep|..], sep)
  {
    var i := FindFrom(s, sep, 0);
    if i != -1 {
      assert Split(s, sep)[0] == s[..i];
    }
  }

  /** The separator of the reply, "\njson\n", can overlap itself; the leftmost cut
      decides the pieces: "\njson\njson\n" is split at position 0, not at 5. */
  lemma SplitOverlappingSeparator()
    ensures Split("\njson\njson\n", "\njson\n") == ["", "json\n"]
  {
    var s, sep := "\njson\njson\n", "\njson\n";
    assert OccursAt(s, sep, 0) by {
      assert s[0..][..|sep|] == sep;
    }
    var rest := s[|sep|..];
    assert rest == "json\n";
    forall i | 0 <= i <= |rest| ensures !OccursAt(rest, sep, i) {
    }
    assert Split(rest, sep) == [rest];
  }

  /** Text without the separator is one piece. */
  lemma SplitNoSeparator(s: string, sep: string)
    requires sep != []
    requires forall i :: 0 <= i <= |s| ==> !OccursAt(s, sep, i)
    ensures Split(s, sep) == [s]
  {
  }

  /** `r` is a suffix of `s`. */
  predicate EndsWith(s: string, r: string) {
    |r| <= |s| && s[|s| - |r|..] == r
  }

  /** `os.path.basename(p)` on POSIX: what follows the last '/'. */
  function Basename(p: string): (r: string)
    ensures EndsWith(p, r)
    ensures '/' !in r
    ensures |r| < |p| ==> p[|p| - |r| - 1] == '/'
  {
    if p == [] || p[|p| - 1] == '/' then []
    else
      var q := p[..|p| - 1];
      var r := Basename(q);
      SuffixSnoc(p, r);
      r + [p[|p| - 1]]
  }

  lemma SuffixSnoc(p: string, r: string)
    requires p != [] && EndsWith(p[..|p| - 1], r)
    ensures EndsWith(p, r + [p[|p| - 1]])
    ensures |r| + 1 < |p| ==> p[|p| - |r| - 2] == p[..|p| - 1][|p| - 1 - |r| - 1]
  {
    assert p[..|p| - 1][|p| - 1 - |r|..] + [p[|p| - 1]] == p[|p| - |r| - 1..];
  }
}
