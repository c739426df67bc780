/** The free function `splitString(line, delim, fields)` of the chess tool
    and the field-count check `readFENFile` applies to each line. */
module ChessTool {
  import opened Wrappers

  type String = seq<char>

  /** `d` occurs in `s` starting at index `k`. */
  predicate OccursAt(s: String, d: String, k: int) {
    0 <= k && k + |d| <= |s| && s[k..k + |d|] == d
  }

  /** `d` occurs somewhere in `s`. */
  predicate Contains(s: String, d: String) {
    exists k | 0 <= k <= |s| :: OccursAt(s, d, k)
  }

  predicate EndsWith(s: String, d: String) {
    |d| <= |s| && s[|s| - |d|..] == d
  }

  /** `s.find(d, start)`: the first occurrence of `d` at or after `start`,
      `None` for `npos` (see `FindIsFirstOccurrence`). */
  function Find(s: String, d: String, start: nat): (r: Option<nat>)
    requires |d| > 0 && start <= |s|
    ensures r.Some? ==> start <= r.value && r.value + |d| <= |s|
    decreases |s| - start
  {
    if start + |d| > |s| then None
    else if s[start..start + |d|] == d then Some(start)
    else Find(s, d, start + 1)
  }

  /** `Find` answers `npos` exactly when `d` does not occur at or after
      `start`, and otherwise the first such occurrence. */
  lemma {:induction false} FindIsFirstOccurrence(s: String, d: String, start: nat)
    requires |d| > 0 && start <= |s|
    ensures var r := Find(s, d, start);
      (r.None? <==> forall k | start <= k :: !OccursAt(s, d, k)) &&
      (r.Some? ==> OccursAt(s, d, r.value) && forall k | start <= k < r.value :: !OccursAt(s, d, k))
    decreases |s| - start
  {
    if start + |d| > |s| {
    } else if s[start..start + |d|] == d {
      assert OccursAt(s, d, start);
    } else {
      FindIsFirstOccurrence(s, d, start + 1);
    }
  }

  /** What `Find` returns is an occurrence. */
  lemma FindOccurs(s: String, d: String, start: nat)
    requires |d| > 0 && start <= |s| && Find(s, d, start).Some?
    ensures OccursAt(s, d, Find(s, d, start).value)
  {
    FindIsFirstOccurrence(s, d, start);
  }

  /** The fields of `line` from index `start` on: the text up to each
      occurrence of `d` found by `Find`, then the remainder if it is not
      empty. */
  function FieldsFrom(line: String, d: String, start: nat): seq<String>
    requires |d| > 0 && start <= |line|
    decreases |line| - start
  {
    match Find(line, d, start)
    case None => if start < |line| then [line[start..]] else []
    case Some(n) => [line[start..n]] + FieldsFrom(line, d, n + |d|)
  }

  /** The fields `splitString` appends for `line`. */
  function Fields(line: String, d: String): seq<String>
    requires |d| > 0
  {
    FieldsFrom(line, d, 0)
  }

  /** `splitString(line, delim, fields)`: append the fields of `line` to
      `fields`.  With an empty delimiter `find` keeps returning `start` and
      the loop never ends, so the delimiter must not be empty. */
  method SplitString(line: String, delim: String, fields: seq<String>) returns (r: seq<String>)
    requires |delim| > 0
    ensures r == fields + Fields(line, delim)
  {
    r := fields;
    var start: nat := 0;
    while true
      invariant start <= |line|
      invariant r + FieldsFrom(line, delim, start) == fields + Fields(line, delim)
      decreases |line| - start
    {
      var n := Find(line, delim, start);
      if n.None? {
        break;
      }
      FieldsFromStep(line, delim, start);
      AppendField(r, line[start..n.value], FieldsFrom(line, delim, n.value + |delim|));
      r := r + [line[start..n.value]];
      start := n.value + |delim|;
    }
    FieldsFromStep(line, delim, start);
    if start < |line| {
      r := r + [line[start..]];
    }
  }

  /** One step of `FieldsFrom`, by the answer of `Find`. */
  lemma FieldsFromStep(line: String, d: String, start: nat)
    requires |d| > 0 && start <= |line|
    ensures Find(line, d, start).None? ==>
      FieldsFrom(line, d, start) == (if start < |line| then [line[start..]] else [])
    ensures Find(line, d, start).Some? ==> var n := Find(line, d, start).value;
      FieldsFrom(line, d, start) == [line[start..n]] + FieldsFrom(line, d, n + |d|)
  {
  }

  lemma AppendField(r: seq<String>, f: String, rest: seq<String>)
    ensures r + ([f] + rest) == (r + [f]) + rest
  {
  }

  /** Fields joined with `d` between them. */
  function Join(fs: seq<String>, d: String): String {
    if |fs| == 0 then []
    else if |fs| == 1 then fs[0]
    else fs[0] + d + Join(fs[1..], d)
  }

  /** The last of `fs`, if any, is not empty. */
  predicate LastNonEmpty(fs: seq<String>) {
    fs == [] || fs[|fs| - 1] != []
  }

  /** Joining `fs` with `d` gives back the line from `start`, with no empty
      field at the end, or that text without the final delimiter of the
      line. */
  predicate JoinsBack(line: String, d: String, start: nat, fs: seq<String>)
    requires start <= |line|
  {
    (line[start..] == Join(fs, d) && LastNonEmpty(fs)) ||
    (EndsWith(line, d) && line[start..] == Join(fs, d) + d)
  }

  /** Joining the fields with the delimiter gives back the line, or the line
      without its last delimiter when the trailing empty field was
      dropped. */
  lemma {:induction false} FieldsFromJoin(line: String, d: String, start: nat)
    requires |d| > 0 && start <= |line|
    ensures JoinsBack(line, d, start, FieldsFrom(line, d, start))
    decreases |line| - start
  {
    var found := Find(line, d, start);
    if found.Some? {
      FieldsFromJoin(line, d, found.value + |d|);
      JoinAfterDelimiter(line, d, start, found.value);
    } else {
      JoinWithoutDelimiter(line, d, start);
    }
  }

  /** The step of `FieldsFromJoin` when no delimiter is left. */
  lemma JoinWithoutDelimiter(line: String, d: String, start: nat)
    requires |d| > 0 && start <= |line| && Find(line, d, start).None?
    ensures JoinsBack(line, d, start, FieldsFrom(line, d, start))
  {
    FieldsFromStep(line, d, start);
  }

  /** The step of `FieldsFromJoin` at the delimiter found at `n`. */
  lemma JoinAfterDelimiter(line: String, d: String, start: nat, n: nat)
    requires |d| > 0 && start <= |line| && Find(line, d, start) == Some(n)
    requires JoinsBack(line, d, n + |d|, FieldsFrom(line, d, n + |d|))
    ensures JoinsBack(line, d, start, FieldsFrom(line, d, start))
  {
    FieldsFromStep(line, d, start);
    FindOccurs(line, d, start);
    var next := n + |d|;
    SplitAtDelimiter(line, d, start, n);
    NoFieldsAtEnd(line, d, next);
    PrependField(line, d, start, next, line[start..n], FieldsFrom(line, d, next));
  }

  /** One field and a delimiter in front of a joined tail. */
  lemma PrependField(line: String, d: String, start: nat, next: nat, f: String, rest: seq<String>)
    requires start <= next <= |line|
    requires line[start..] == f + d + line[next..]
    requires rest == [] <==> next == |line|
    requires JoinsBack(line, d, next, rest)
    ensures JoinsBack(line, d, start, [f] + rest)
  {
    JoinCons(f, rest, d);
    if rest == [] {
      assert line[start..] == f + d;
      SuffixOfSlice(line, start, d);
    } else if line[next..] == Join(rest, d) && LastNonEmpty(rest) {
      assert ([f] + rest)[|rest|] == rest[|rest| - 1];
    } else {
      assert line[start..] == f + d + Join(rest, d) + d;
    }
  }

  /** A slice that ends with `d` makes the whole sequence end with `d`. */
  lemma SuffixOfSlice(line: String, start: nat, d: String)
    requires start <= |line| && EndsWith(line[start..], d)
    ensures EndsWith(line, d)
  {
    assert line[start..][|line| - start - |d|..] == line[|line| - |d|..];
  }

  /** The scan yields no field exactly when it starts at the end of the
      line. */
  lemma NoFieldsAtEnd(line: String, d: String, start: nat)
    requires |d| > 0 && start <= |line|
    ensures FieldsFrom(line, d, start) == [] <==> start == |line|
  {
    FieldsFromStep(line, d, start);
  }

  /** The text from `start` is the text before an occurrence, the
      delimiter and the text after it. */
  lemma SplitAtDelimiter(line: String, d: String, start: nat, n: nat)
    requires start <= n && OccursAt(line, d, n)
    ensures line[start..] == line[start..n] + d + line[n + |d|..]
  {
  }

  /** Joining a field in front of the others. */
  lemma JoinCons(f: String, rest: seq<String>, d: String)
    ensures Join([f] + rest, d) == if rest == [] then f else f + d + Join(rest, d)
  {
    if rest != [] {
      assert ([f] + rest)[1..] == rest;
    }
  }

  /** The round trip for the whole line: the fields joined with the
      delimiter give back the line, or the line without a final delimiter
      whose empty field was dropped; a join that gives back the whole line
      never ends with an empty field. */
  lemma JoinFields(line: String, d: String)
    requires |d| > 0
    ensures line == Join(Fields(line, d), d) ||
      (EndsWith(line, d) && line == Join(Fields(line, d), d) + d)
    ensures line == Join(Fields(line, d), d) ==> LastNonEmpty(Fields(line, d))
  {
    FieldsFromJoin(line, d, 0);
    assert line[0..] == line;
  }

  /** No field contains the delimiter. */
  lemma {:induction false} FieldsFromHaveNoDelim(line: String, d: String, start: nat)
    requires |d| > 0 && start <= |line|
    ensures forall f | f in FieldsFrom(line, d, start) :: !Contains(f, d)
    decreases |line| - start
  {
    FindIsFirstOccurrence(line, d, start);
    match Find(line, d, start)
    case None =>
      if start < |line| {
        NoDelimIn(line, d, start, |line|);
        assert line[start..|line|] == line[start..];
      }
    case Some(n) =>
      FieldsFromStep(line, d, start);
      NoDelimIn(line, d, start, n);
      FieldsFromHaveNoDelim(line, d, n + |d|);
  }

  /** A stretch of `line` that holds no occurrence of `d` starting in it
      contains no `d`. */
  lemma NoDelimIn(line: String, d: String, start: nat, end: nat)
    requires |d| > 0 && start <= end <= |line|
    requires forall k | start <= k < end :: !OccursAt(line, d, k)
    ensures !Contains(line[start..end], d)
  {
    var f := line[start..end];
    forall j | OccursAt(f, d, j)
      ensures false
    {
      SliceOfSlice(line, start, end, j, j + |d|);
      assert OccursAt(line, d, start + j);
    }
  }

  lemma SliceOfSlice(s: String, start: nat, end: nat, i: nat, j: nat)
    requires start <= end <= |s| && i <= j <= end - start
    ensures s[start..end][i..j] == s[start + i..start + j]
  {
    assert forall k | 0 <= k < j - i :: s[start..end][i..j][k] == s[start + i + k];
  }

  lemma FieldsHaveNoDelim(line: String, d: String)
    requires |d| > 0
    ensures forall f | f in Fields(line, d) :: !Contains(f, d)
  {
    FieldsFromHaveNoDelim(line, d, 0);
  }

  /** Where field `i` of `fs` starts when the fields are laid out from
      `start` with `d` after each of them. */
  function FieldOffset(fs: seq<String>, d: String, start: nat, i: nat): nat
    requires i <= |fs|
    decreases i
  {
    if i == 0 then start else FieldOffset(fs[1..], d, start + |fs[0]| + |d|, i - 1)
  }

  /** `f` is the text of `line` at `p`, and no occurrence of `d` starts
      inside it. */
  predicate LeftmostFieldAt(line: String, d: String, p: nat, f: String) {
    p + |f| <= |line| && line[p..p + |f|] == f &&
    forall k | p <= k < p + |f| :: !OccursAt(line, d, k)
  }

  /** Field `i` of `fs`, laid out from `start`, is the text of `line` at
      its offset with no occurrence of `d` starting inside it, and is
      followed by an occurrence unless it is the last field. */
  predicate LeftmostField(line: String, d: String, fs: seq<String>, start: nat, i: nat)
    requires i < |fs|
  {
    var p := FieldOffset(fs, d, start, i);
    LeftmostFieldAt(line, d, p, fs[i]) && (i + 1 < |fs| ==> OccursAt(line, d, p + |fs[i]|))
  }

  /** The scan takes the leftmost occurrence each time: every field is the
      text at its offset with no occurrence of `d` starting inside it, and
      every field but the last is followed by an occurrence.  Together with
      `JoinFields` this pins the fields down even for a delimiter that
      overlaps itself. */
  lemma {:induction false} FieldsFromLeftmost(line: String, d: String, start: nat)
    requires |d| > 0 && start <= |line|
    ensures var fs := FieldsFrom(line, d, start);
      forall i | 0 <= i < |fs| :: LeftmostField(line, d, fs, start, i)
    decreases |line| - start
  {
    FieldsFromStep(line, d, start);
    var fs := FieldsFrom(line, d, start);
    match Find(line, d, start)
    case None =>
      if start < |line| {
        LastFieldLeftmost(line, d, start);
        assert LeftmostField(line, d, fs, start, 0);
      }
    case Some(n) =>
      var rest := FieldsFrom(line, d, n + |d|);
      FieldsFromLeftmost(line, d, n + |d|);
      FirstFieldLeftmost(line, d, start, n);
      assert fs[0] == line[start..n] && fs[1..] == rest;
      assert LeftmostField(line, d, fs, start, 0);
      forall i | 0 < i < |fs|
        ensures LeftmostField(line, d, fs, start, i)
      {
        LeftmostFieldOfTail(line, d, fs, rest, start, n + |d|, i);
      }
  }

  /** The field before the first occurrence found from `start`. */
  lemma FirstFieldLeftmost(line: String, d: String, start: nat, n: nat)
    requires |d| > 0 && start <= |line| && Find(line, d, start) == Some(n)
    ensures LeftmostFieldAt(line, d, start, line[start..n]) && OccursAt(line, d, n)
  {
    FindIsFirstOccurrence(line, d, start);
  }

  /** The remainder after the last occurrence. */
  lemma LastFieldLeftmost(line: String, d: String, start: nat)
    requires |d| > 0 && start < |line| && Find(line, d, start).None?
    ensures LeftmostFieldAt(line, d, start, line[start..])
  {
    FindIsFirstOccurrence(line, d, start);
  }

  /** A field of the tail keeps its place when a field and a delimiter are
      put in front. */
  lemma LeftmostFieldOfTail(line: String, d: String, fs: seq<String>, rest: seq<String>, start: nat, next: nat, i: nat)
    requires 0 < i < |fs| && fs[1..] == rest && next == start + |fs[0]| + |d|
    requires LeftmostField(line, d, rest, next, i - 1)
    ensures LeftmostField(line, d, fs, start, i)
  {
    assert FieldOffset(fs, d, start, i) == FieldOffset(rest, d, next, i - 1);
    assert fs[i] == rest[i - 1];
  }

  /** `FieldsFromLeftmost` for the whole line. */
  lemma FieldsAreLeftmost(line: String, d: String)
    requires |d| > 0
    ensures var fs := Fields(line, d);
      forall i | 0 <= i < |fs| :: LeftmostField(line, d, fs, 0, i)
  {
    FieldsFromLeftmost(line, d, 0);
    assert Fields(line, d) == FieldsFrom(line, d, 0);
  }

  /** A delimiter right at the start of the scan gives an empty field:
      two adjacent delimiters enclose an empty field. */
  lemma EmptyFieldAtDelimiter(line: String, d: String, start: nat)
    requires |d| > 0 && start <= |line|
    requires OccursAt(line, d, start)
    ensures FieldsFrom(line, d, start) == [[]] + FieldsFrom(line, d, start + |d|)
  {
    assert Find(line, d, start) == Some(start);
    FieldsFromStep(line, d, start);
    assert line[start..start] == [];
  }

  /** The empty line has no fields. */
  lemma EmptyLineNoFields(d: String)
    requires |d| > 0
    ensures Fields([], d) == []
  {
  }

  /** The FEN separator overlaps itself: in `"x : : y"` the scan takes the
      occurrence at 1, so the second field starts with the colon of the
      occurrence at 3. */
  lemma OverlappingSeparator()
    ensures Fields("x : : y", FenSeparator) == ["x", ": y"]
  {
    var line := "x : : y";
    assert OccursAt(line, FenSeparator, 1);
    assert Find(line, FenSeparator, 0) == Some(1) by {
      assert line[0..3][0] != FenSeparator[0];
      assert Find(line, FenSeparator, 1) == Some(1);
    }
    assert Find(line, FenSeparator, 4) == None by {
      assert line[4..7][0] != FenSeparator[0];
      assert Find(line, FenSeparator, 5) == None;
    }
    FieldsFromStep(line, FenSeparator, 0);
    FieldsFromStep(line, FenSeparator, 4);
    assert line[0..1] == "x" && line[4..] == ": y";
  }

  /** The separator of the FEN training files. */
  const FenSeparator: String := " : "

  /** The four-field check of `readFENFile`: a line must split into
      exactly four fields (FEN, result, search score, q-search score);
      anything else is the error "Invalid file format".  Reading the stream,
      parsing the FEN and the numbers are not modelled. */
  method ReadFENLine(line: String) returns (r: Result<seq<String>, String>)
    ensures r.Success? <==> |Fields(line, FenSeparator)| == 4
    ensures r.Success? ==> r.value == Fields(line, FenSeparator)
    ensures r.Failure? ==> r.error == "Invalid file format"
  {
    var fields := SplitString(line, FenSeparator, []);
    if |fields| != 4 {
      return Failure("Invalid file format");
    }
    return Success(fields);
  }
}
