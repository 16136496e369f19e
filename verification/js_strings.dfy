/** The few `String.prototype` operations the controller and the status
    report rely on: `startsWith`, `includes`, `split` on one character and
    `replace` with a string pattern (first occurrence only). */
module JsStrings {

  /** `s.startsWith(p)`. */
  predicate StartsWith(s: string, p: string) {
    |p| <= |s| && s[..|p|] == p
  }

  /** `p` occurs in `s` at index `i`. */
  predicate OccursAt(s: string, p: string, i: int) {
    0 <= i && i + |p| <= |s| && s[i..i + |p|] == p
  }

  /** `p` occurs at `i` and nowhere before. */
  predicate FirstOccurrence(s: string, p: string, i: int) {
    OccursAt(s, p, i) && forall j :: 0 <= j < i ==> !OccursAt(s, p, j)
  }

  /** Dropping the first character shifts every occurrence one place left. */
  lemma OccursShift(s: string, p: string, i: int)
    requires |s| > 0 && 0 <= i
    ensures OccursAt(s[1..], p, i) <==> OccursAt(s, p, i + 1)
  {
    if 0 <= i && i + |p| <= |s| - 1 {
      assert s[1..][i..i + |p|] == s[i + 1..i + 1 + |p|];
    }
  }

  /** `s.indexOf(p)`: the first index where `p` occurs, or -1. What that
      means is stated by `IndexOfFindsFirst`. */
  function IndexOf(s: string, p: string): (r: int)
    ensures r >= -1
    decreases |s|
  {
    if |s| < |p| then -1
    else if StartsWith(s, p) then 0
    else
      var k := IndexOf(s[1..], p);
      if k < 0 then -1 else k + 1
  }

  /** `indexOf` returns the first occurrence, and -1 exactly when there is
      none. */
  lemma {:induction false} IndexOfFindsFirst(s: string, p: string)
    ensures IndexOf(s, p) >= 0 ==> FirstOccurrence(s, p, IndexOf(s, p))
    ensures IndexOf(s, p) == -1 ==> forall i :: !OccursAt(s, p, i)
    decreases |s|
  {
    if |s| < |p| {
    } else if StartsWith(s, p) {
      assert OccursAt(s, p, 0);
    } else {
      IndexOfFindsFirst(s[1..], p);
      assert !OccursAt(s, p, 0);
      forall i | 0 <= i ensures OccursAt(s[1..], p, i) <==> OccursAt(s, p, i + 1) {
        OccursShift(s, p, i);
      }
      assert forall i :: OccursAt(s, p, i) ==> i == 0 || OccursAt(s[1..], p, i - 1);
    }
  }

  /** `s.includes(p)`: a case-sensitive substring test, anywhere in `s`. */
  function Includes(s: string, p: string): bool {
    IndexOf(s, p) >= 0
  }

  /** `includes` holds exactly when `p` occurs somewhere in `s`. */
  lemma IncludesIff(s: string, p: string)
    ensures Includes(s, p) <==> exists i :: OccursAt(s, p, i)
  {
    IndexOfFindsFirst(s, p);
  }

  /** A text containing `p` still contains it once anything is put around it. */
  lemma IncludesInContext(a: string, b: string, c: string, p: string)
    requires Includes(b, p)
    ensures Includes(a + b + c, p)
  {
    IncludesIff(b, p);
    IncludesIff(a + b + c, p);
    var i :| OccursAt(b, p, i);
    assert (a + b + c)[|a| + i..|a| + i + |p|] == b[i..i + |p|];
    assert OccursAt(a + b + c, p, |a| + i);
  }

  /** `s.split(sep)` for a one-character separator: the pieces between
      separators, always at least one (`"".split("\n")` is `[""]`). */
  function Split(s: string, sep: char): (parts: seq<string>)
    ensures |parts| >= 1
    ensures forall k :: 0 <= k < |parts| ==> sep !in parts[k]
    ensures Join(parts, sep) == s
  {
    if |s| == 0 then
      [""]
    else
      var rest := Split(s[1..], sep);
      if s[0] == sep then
        [""] + rest
      else
        var parts := [[s[0]] + rest[0]] + rest[1..];
        assert parts[1..] == rest[1..];
        parts
  }

  /** The inverse of `Split`: the pieces glued back with the separator. */
  function Join(parts: seq<string>, sep: char): string
    requires |parts| >= 1
  {
    if |parts| == 1 then parts[0] else parts[0] + [sep] + Join(parts[1..], sep)
  }

  /** Appending a piece appends a separator and that piece to the text. */
  lemma {:induction false} JoinAppend(parts: seq<string>, x: string, sep: char)
    requires |parts| >= 1
    ensures Join(parts + [x], sep) == Join(parts, sep) + [sep] + x
  {
    if |parts| > 1 {
      assert (parts + [x])[1..] == parts[1..] + [x];
      JoinAppend(parts[1..], x, sep);
    }
  }

  /** Splitting is unique: any separator-free pieces that join to `s` are
      exactly `Split(s, sep)`. Hence `Split(Join(parts)) == parts`. */
  lemma {:induction false} SplitJoin(parts: seq<string>, sep: char)
    requires |parts| >= 1
    requires forall k :: 0 <= k < |parts| ==> sep !in parts[k]
    ensures Split(Join(parts, sep), sep) == parts
    decreases |Join(parts, sep)|, |parts[0]|
  {
    var s := Join(parts, sep);
    if |parts| == 1 {
      SplitOfSeparatorFree(parts[0], sep);
    } else if |parts[0]| == 0 {
      assert s == [sep] + Join(parts[1..], sep);
      assert s[1..] == Join(parts[1..], sep);
      SplitJoin(parts[1..], sep);
      assert [""] + parts[1..] == parts;
    } else {
      var shorter := [parts[0][1..]] + parts[1..];
      assert shorter[1..] == parts[1..];
      assert Join(shorter, sep) == s[1..] by {
        assert s == parts[0] + [sep] + Join(parts[1..], sep);
        assert parts[0] == [parts[0][0]] + parts[0][1..];
      }
      assert sep !in shorter[0] by {
        assert forall c :: c in parts[0][1..] ==> c in parts[0];
      }
      SplitJoin(shorter, sep);
      assert s[0] == parts[0][0] != sep;
      assert [s[0]] + shorter[0] == parts[0];
      assert [parts[0]] + parts[1..] == parts;
    }
  }

  /** A separator-free string splits into itself. */
  lemma {:induction false} SplitOfSeparatorFree(s: string, sep: char)
    requires sep !in s
    ensures Split(s, sep) == [s]
    decreases |s|
  {
    if |s| > 0 {
      assert sep !in s[1..] by {
        assert forall c :: c in s[1..] ==> c in s;
      }
      SplitOfSeparatorFree(s[1..], sep);
      assert [s[0]] + s[1..] == s;
    }
  }

  /** `s.replace(p, rep)` with a string pattern: only the first occurrence
      of `p` is replaced; without one `s` is returned unchanged (stated by
      `ReplaceFirstSpec`). `rep` is inserted literally, so it may not hold
      a `$`, which would start one of the `$&`, `$$`, `` $` ``, `$'`
      substitution patterns. */
  function ReplaceFirst(s: string, p: string, rep: string): string
    requires '$' !in rep
  {
    IndexOfFindsFirst(s, p);
    var i := IndexOf(s, p);
    if i < 0 then s else s[..i] + rep + s[i + |p|..]
  }

  /** What `replace` does: the first occurrence of `p`, if there is one,
      gives way to `rep`, and nothing else changes. */
  lemma ReplaceFirstSpec(s: string, p: string, rep: string)
    requires '$' !in rep
    ensures !Includes(s, p) ==> ReplaceFirst(s, p, rep) == s
    ensures Includes(s, p) ==>
      exists i :: FirstOccurrence(s, p, i) && ReplaceFirst(s, p, rep) == s[..i] + rep + s[i + |p|..]
  {
    IndexOfFindsFirst(s, p);
  }

  /** On a line that starts with `p`, replacing `p` drops that prefix. */
  lemma ReplacePrefix(s: string, p: string, rep: string)
    requires StartsWith(s, p) && '$' !in rep
    ensures ReplaceFirst(s, p, rep) == rep + s[|p|..]
  {
    assert IndexOf(s, p) == 0;
    assert s[..0] + rep == rep;
  }
}
