/**
 * Text primitives the getprop code takes from the C library: `strstr` on one
 * line, and `getline`, which hands a text back one line at a time with its
 * terminating newline kept.
 */
module Text {
  import opened Wrappers

  /** A string with at least one character (what `strerror` always returns). */
  type NonEmpty = s: string | |s| > 0 witness "?"

  /** `needle` occurs in `hay` starting at index `i`. */
  predicate OccursAt(hay: string, needle: string, i: nat)
  {
    i + |needle| <= |hay| && hay[i..i + |needle|] == needle
  }

  /** `needle` occurs somewhere in `hay`. */
  ghost predicate Occurs(hay: string, needle: string)
  {
    exists i: nat :: OccursAt(hay, needle, i)
  }

  /** The scan behind `strstr`: the first index at or after `from` where `needle` occurs. */
  function FindFrom(hay: string, needle: string, from: nat): (r: Option<nat>)
    ensures r.Some? ==> from <= r.value && OccursAt(hay, needle, r.value)
    ensures r.Some? ==> forall i: nat :: from <= i < r.value ==> !OccursAt(hay, needle, i)
    ensures r.None? ==> forall i: nat :: from <= i ==> !OccursAt(hay, needle, i)
    decreases |hay| - from
  {
    if from + |needle| > |hay| then None
    else if hay[from..from + |needle|] == needle then Some(from)
    else FindFrom(hay, needle, from + 1)
  }

  /** `strstr(hay, needle) != NULL`. */
  function Contains(hay: string, needle: string): (b: bool)
    ensures b <==> Occurs(hay, needle)
  {
    var r := FindFrom(hay, needle, 0);
    if r.Some? then true
    else
      assert forall i: nat :: !OccursAt(hay, needle, i);
      false
  }

  /** A line as `getline` returns it: non-empty, with a newline at most at its end. */
  predicate IsLine(l: string)
  {
    |l| > 0 && '\n' !in l[..|l| - 1]
  }

  /** The line ends with its newline (every line but possibly the last of a text). */
  predicate Terminated(l: string)
  {
    |l| > 0 && l[|l| - 1] == '\n'
  }

  /** Length of the first line of `t`: up to and including the first newline, or all of `t`. */
  function FirstLineLength(t: string): (n: nat)
    requires |t| > 0
    ensures 0 < n <= |t|
    ensures IsLine(t[..n])
    ensures n < |t| ==> t[n - 1] == '\n'
  {
    if t[0] == '\n' || |t| == 1 then 1
    else
      var m := FirstLineLength(t[1..]);
      assert t[..1 + m] == [t[0]] + t[1..][..m];
      1 + m
  }

  /** The lines that successive `getline` calls read from a file holding `t`. */
  function Lines(t: string): (ls: seq<string>)
    ensures forall k :: 0 <= k < |ls| ==> IsLine(ls[k])
    ensures forall k :: 0 <= k < |ls| - 1 ==> Terminated(ls[k])
    decreases |t|
  {
    if t == [] then []
    else
      var n := FirstLineLength(t);
      [t[..n]] + Lines(t[n..])
  }

  /** The text a sequence of lines spells out. */
  function Concat(ls: seq<string>): string
  {
    if ls == [] then "" else ls[0] + Concat(ls[1..])
  }

  /** Reading a text line by line loses nothing and adds nothing. */
  lemma {:induction false} ConcatLines(t: string)
    ensures Concat(Lines(t)) == t
    decreases |t|
  {
    if t != [] {
      var n := FirstLineLength(t);
      var rest := Lines(t[n..]);
      ConcatLines(t[n..]);
      ConcatCons(t[..n], rest);
      assert t == t[..n] + t[n..];
    }
  }

  /** Concat of a line followed by more lines. */
  lemma ConcatCons(l: string, ls: seq<string>)
    ensures Concat([l] + ls) == l + Concat(ls)
  {
    assert ([l] + ls)[1..] == ls;
  }

  /** Writing well-formed lines out and reading them back yields the same lines. */
  lemma {:induction false} LinesConcat(ls: seq<string>)
    requires forall k :: 0 <= k < |ls| ==> IsLine(ls[k])
    requires forall k :: 0 <= k < |ls| - 1 ==> Terminated(ls[k])
    ensures Lines(Concat(ls)) == ls
  {
    if ls != [] {
      var t := Concat(ls);
      var l := ls[0];
      assert t == l + Concat(ls[1..]);
      FirstLineOf(l, Concat(ls[1..]));
      var n := FirstLineLength(t);
      assert n == |l|;
      assert t[..n] == l;
      assert t[n..] == Concat(ls[1..]);
      LinesConcat(ls[1..]);
    }
  }

  /** `getline` on `l + rest` returns exactly `l` when `l` is a terminated line or `rest` is empty. */
  lemma {:induction false} FirstLineOf(l: string, rest: string)
    requires IsLine(l)
    requires Terminated(l) || rest == ""
    ensures FirstLineLength(l + rest) == |l|
    decreases |l|
  {
    var t := l + rest;
    if |l| > 1 {
      assert t[0] == l[0] != '\n';
      assert t[1..] == l[1..] + rest;
      FirstLineOf(l[1..], rest);
    }
  }
}
