/** Pipe-delimited multi-valued cells: Python's `str.split('|')` and
    `'|'.join(...)`, ASCII `str.lower()`, and `reduce_list`
    (fmp_data_munge.py:214-230). */
module PipedValues {
  import opened Wrappers

  const Pipe: char := '|'
  const PipeSep: string := "|"

  /** Python truthiness of an `Optional[str]`: present and non-empty. */
  predicate Present(o: Option<string>) {
    o.Some? && o.value != ""
  }

  /** No piece contains the separator. */
  predicate PipeFree(pieces: seq<string>) {
    forall k :: 0 <= k < |pieces| ==> Pipe !in pieces[k]
  }

  /** `s.split('|')`: the pieces between separators, left to right.
      It never returns an empty list, so `""` splits into `[""]`. */
  function Split(s: string): (r: seq<string>)
    ensures |r| >= 1
    ensures PipeFree(r)
    decreases |s|
  {
    if |s| == 0 then [""]
    else
      var rest := Split(s[1..]);
      if s[0] == Pipe then [""] + rest
      else [[s[0]] + rest[0]] + rest[1..]
  }

  /** `sep.join(parts)`; joining no parts gives `""`. */
  function Join(parts: seq<string>, sep: string): string
    decreases |parts|
  {
    if |parts| == 0 then ""
    else if |parts| == 1 then parts[0]
    else parts[0] + sep + Join(parts[1..], sep)
  }

  /** `s.split('|')[i]`, or `None` where Python raises `IndexError`. */
  function Piece(s: string, i: nat): (r: Option<string>)
    ensures r.Some? <==> i < |Split(s)|
    ensures r.Some? ==> Pipe !in r.value
  {
    var pieces := Split(s);
    if i < |pieces| then Some(pieces[i]) else None
  }

  lemma JoinCons(a: string, rest: seq<string>, sep: string)
    requires |rest| >= 1
    ensures Join([a] + rest, sep) == a + sep + Join(rest, sep)
  {
    assert ([a] + rest)[1..] == rest;
  }

  /** Splitting and re-joining gives back the original cell. */
  lemma {:induction false} JoinOfSplit(s: string)
    ensures Join(Split(s), PipeSep) == s
    decreases |s|
  {
    if |s| > 0 {
      var rest := Split(s[1..]);
      JoinOfSplit(s[1..]);
      if s[0] == Pipe {
        JoinCons("", rest, PipeSep);
        assert s == [s[0]] + s[1..];
      } else if |rest| == 1 {
        assert s == [s[0]] + s[1..];
      } else {
        assert rest == [rest[0]] + rest[1..];
        JoinCons(rest[0], rest[1..], PipeSep);
        JoinCons([s[0]] + rest[0], rest[1..], PipeSep);
        assert s == [s[0]] + s[1..];
      }
    }
  }

  /** A pipe-free prefix glues onto the first piece of what follows it. */
  lemma {:induction false} SplitPipeFreePrefix(a: string, t: string)
    requires Pipe !in a
    ensures Split(a + t) == [a + Split(t)[0]] + Split(t)[1..]
    decreases |a|
  {
    if |a| == 0 {
      assert a + t == t;
      assert a + Split(t)[0] == Split(t)[0];
    } else {
      var u := a + t;
      assert u[0] == a[0];
      assert u[1..] == a[1..] + t;
      SplitPipeFreePrefix(a[1..], t);
      assert [a[0]] + (a[1..] + Split(t)[0]) == a + Split(t)[0];
    }
  }

  /** A cell without separators is a single piece. */
  lemma SplitPipeFree(a: string)
    requires Pipe !in a
    ensures Split(a) == [a]
  {
    SplitPipeFreePrefix(a, "");
    assert a + "" == a;
  }

  /** Joining pipe-free pieces and splitting again gives back the pieces. */
  lemma {:induction false} SplitOfJoin(pieces: seq<string>)
    requires |pieces| >= 1
    requires PipeFree(pieces)
    ensures Split(Join(pieces, PipeSep)) == pieces
    decreases |pieces|
  {
    if |pieces| == 1 {
      SplitPipeFree(pieces[0]);
    } else {
      var b := Join(pieces[1..], PipeSep);
      var t := PipeSep + b;
      assert t[0] == Pipe && t[1..] == b;
      SplitOfJoin(pieces[1..]);
      assert Split(t) == [""] + pieces[1..];
      SplitPipeFreePrefix(pieces[0], t);
      assert pieces[0] + PipeSep + b == pieces[0] + t;
      assert pieces[0] + "" == pieces[0];
      assert pieces == [pieces[0]] + pieces[1..];
    }
  }

  /** Python's ASCII-range `str.lower()` on one character. */
  function LowerChar(c: char): char {
    if 'A' <= c <= 'Z' then (c as int + 32) as char else c
  }

  /** `s.lower()`, restricted to ASCII case folding. */
  function Lower(s: string): (r: string)
    ensures |r| == |s|
    ensures forall k :: 0 <= k < |s| ==> r[k] == LowerChar(s[k])
    decreases |s|
  {
    if |s| == 0 then "" else [LowerChar(s[0])] + Lower(s[1..])
  }

  lemma LowerIdempotent(s: string)
    ensures Lower(Lower(s)) == Lower(s)
  {
  }

  /** Positions `start + k` whose flag `flags[k]` is true, in increasing order. */
  function PositionsFrom(flags: seq<bool>, start: nat): (ps: seq<nat>)
    ensures forall k :: 0 <= k < |ps| ==> start <= ps[k] < start + |flags| && flags[ps[k] - start]
    ensures forall k, l :: 0 <= k < l < |ps| ==> ps[k] < ps[l]
    ensures forall i :: start <= i < start + |flags| && flags[i - start] ==> i in ps
    decreases |flags|
  {
    if |flags| == 0 then []
    else
      var rest := PositionsFrom(flags[1..], start + 1);
      if flags[0] then [start] + rest else rest
  }

  /** `[value for value, flag in zip(pieces, flags) if flag]`. */
  function Select(pieces: seq<string>, flags: seq<bool>): (r: seq<string>)
    decreases |pieces|
  {
    if |pieces| == 0 || |flags| == 0 then []
    else (if flags[0] then [pieces[0]] else []) + Select(pieces[1..], flags[1..])
  }

  function Min(a: nat, b: nat): nat {
    if a <= b then a else b
  }

  /** `Select` keeps exactly the flagged pieces, in order, truncated to the
      shorter of the two lists, as `zip` does. */
  lemma SelectKeepsFlagged(pieces: seq<string>, flags: seq<bool>, start: nat)
    ensures var ps := PositionsFrom(flags[..Min(|pieces|, |flags|)], start);
      && |Select(pieces, flags)| == |ps|
      && forall k :: 0 <= k < |ps| ==> ps[k] - start < |pieces| && Select(pieces, flags)[k] == pieces[ps[k] - start]
  {
    SelectLength(pieces, flags, start);
    SelectTrim(pieces, flags);
    var trimmed := flags[..Min(|pieces|, |flags|)];
    var ps := PositionsFrom(trimmed, start);
    forall k | 0 <= k < |ps|
      ensures ps[k] - start < |pieces| && Select(pieces, flags)[k] == pieces[ps[k] - start]
    {
      SelectAt(pieces, trimmed, start, k);
    }
  }

  /** One selected piece per flagged position within the zip. */
  lemma {:induction false} SelectLength(pieces: seq<string>, flags: seq<bool>, start: nat)
    ensures |Select(pieces, flags)| == |PositionsFrom(flags[..Min(|pieces|, |flags|)], start)|
    decreases |pieces|
  {
    var m := Min(|pieces|, |flags|);
    if m > 0 {
      SelectLength(pieces[1..], flags[1..], start + 1);
      assert flags[..m][1..] == flags[1..][..Min(|pieces[1..]|, |flags[1..]|)];
    }
  }

  /** Only the flags that `zip` pairs with a piece matter. */
  lemma {:induction false} SelectTrim(pieces: seq<string>, flags: seq<bool>)
    ensures Select(pieces, flags) == Select(pieces, flags[..Min(|pieces|, |flags|)])
    decreases |pieces|
  {
    var m := Min(|pieces|, |flags|);
    if m > 0 {
      SelectTrim(pieces[1..], flags[1..]);
      assert flags[..m][1..] == flags[1..][..Min(|pieces[1..]|, |flags[1..]|)];
    }
  }

  /** With no flag beyond the pieces, the `k`-th selected piece is the piece
      at the `k`-th flagged position. */
  lemma {:induction false} SelectAt(pieces: seq<string>, flags: seq<bool>, start: nat, k: nat)
    requires |flags| <= |pieces|
    requires k < |PositionsFrom(flags, start)|
    ensures k < |Select(pieces, flags)|
    ensures Select(pieces, flags)[k] == pieces[PositionsFrom(flags, start)[k] - start]
    decreases |flags|
  {
    if |flags| > 0 {
      if flags[0] {
        if k > 0 {
          SelectAt(pieces[1..], flags[1..], start + 1, k - 1);
        }
      } else {
        SelectAt(pieces[1..], flags[1..], start + 1, k);
      }
    }
  }

  /** `reduce_list(values, flags)` (fmp_data_munge.py:214-230). */
  function ReduceList(values: string, flags: seq<bool>): (r: string)
    ensures var kept := Select(Split(values), flags);
      && (|kept| == 0 ==> r == "")
      && (|kept| > 0 ==> Split(r) == kept)
  {
    var kept := Select(Split(values), flags);
    SelectPipeFree(Split(values), flags);
    if |kept| == 0 then ""
    else
      SplitOfJoin(kept);
      Join(kept, PipeSep)
  }

  lemma {:induction false} SelectPipeFree(pieces: seq<string>, flags: seq<bool>)
    requires PipeFree(pieces)
    ensures PipeFree(Select(pieces, flags))
    decreases |pieces|
  {
    if |pieces| > 0 && |flags| > 0 {
      SelectPipeFree(pieces[1..], flags[1..]);
    }
  }

  lemma {:induction false} SelectAllTrue(pieces: seq<string>, flags: seq<bool>)
    requires |flags| == |pieces|
    requires forall k :: 0 <= k < |flags| ==> flags[k]
    ensures Select(pieces, flags) == pieces
    decreases |pieces|
  {
    if |pieces| > 0 {
      SelectAllTrue(pieces[1..], flags[1..]);
      assert pieces == [pieces[0]] + pieces[1..];
    }
  }

  lemma {:induction false} SelectAllFalse(pieces: seq<string>, flags: seq<bool>)
    requires forall k :: 0 <= k < |flags| ==> !flags[k]
    ensures Select(pieces, flags) == []
    decreases |pieces|
  {
    if |pieces| > 0 && |flags| > 0 {
      SelectAllFalse(pieces[1..], flags[1..]);
    }
  }

  /** With one true flag per piece, `reduce_list` returns the cell unchanged. */
  lemma ReduceListAllTrue(values: string, flags: seq<bool>)
    requires |flags| == |Split(values)|
    requires forall k :: 0 <= k < |flags| ==> flags[k]
    ensures ReduceList(values, flags) == values
  {
    SelectAllTrue(Split(values), flags);
    JoinOfSplit(values);
  }

  /** With no true flag, `reduce_list` returns the empty string. */
  lemma ReduceListAllFalse(values: string, flags: seq<bool>)
    requires forall k :: 0 <= k < |flags| ==> !flags[k]
    ensures ReduceList(values, flags) == ""
  {
    SelectAllFalse(Split(values), flags);
  }

  /** `[i for i in xs if i]` over optional strings. */
  function PresentOnly(xs: seq<Option<string>>): (r: seq<string>)
    ensures forall k :: 0 <= k < |r| ==> r[k] != ""
    decreases |xs|
  {
    if |xs| == 0 then []
    else (if Present(xs[0]) then [xs[0].value] else []) + PresentOnly(xs[1..])
  }

  /** The text of an optional string, `""` when absent. */
  function ValueOf(o: Option<string>): string {
    if o.Some? then o.value else ""
  }

  /** The text of every optional string, position for position. */
  function Values(xs: seq<Option<string>>): (r: seq<string>)
    ensures |r| == |xs|
  {
    seq(|xs|, k requires 0 <= k < |xs| => ValueOf(xs[k]))
  }

  /** Which positions hold a present value. */
  function Presence(xs: seq<Option<string>>): (r: seq<bool>)
    ensures |r| == |xs|
  {
    seq(|xs|, k requires 0 <= k < |xs| => Present(xs[k]))
  }

  /** The filter keeps exactly the present values, in their order: it is
      `Select` with each value flagged by its own presence. */
  lemma {:induction false} PresentOnlyIsSelect(xs: seq<Option<string>>)
    ensures PresentOnly(xs) == Select(Values(xs), Presence(xs))
    decreases |xs|
  {
    if |xs| > 0 {
      assert Values(xs)[1..] == Values(xs[1..]);
      assert Presence(xs)[1..] == Presence(xs[1..]);
      PresentOnlyIsSelect(xs[1..]);
    }
  }

  /** A present value as a one-element list, an absent or empty one as `[]`. */
  function Kept(o: Option<string>): seq<string> {
    if Present(o) then [o.value] else []
  }

  lemma PresentOnlyPair(a: Option<string>, b: Option<string>)
    ensures PresentOnly([a, b]) == Kept(a) + Kept(b)
  {
    assert [a, b][1..] == [b];
    assert [b][1..] == [];
    assert PresentOnly([b]) == Kept(b) + PresentOnly([]);
  }

  lemma PresentOnlyTriple(a: Option<string>, b: Option<string>, c: Option<string>)
    ensures PresentOnly([a, b, c]) == Kept(a) + Kept(b) + Kept(c)
  {
    assert [a, b, c][1..] == [b, c];
    PresentOnlyPair(b, c);
  }

  /** A join starts with its first part. */
  lemma JoinStartsWithFirst(parts: seq<string>, sep: string)
    requires |parts| >= 1
    ensures parts[0] <= Join(parts, sep)
  {
    if |parts| > 1 {
      var tail := sep + Join(parts[1..], sep);
      assert Join(parts, sep) == parts[0] + tail;
      assert (parts[0] + tail)[..|parts[0]|] == parts[0];
    }
  }

  lemma JoinPair(a: string, b: string, sep: string)
    ensures Join([a, b], sep) == a + sep + b
  {
    assert [a, b][1..] == [b];
  }

  lemma JoinTriple(a: string, b: string, c: string, sep: string)
    ensures Join([a, b, c], sep) == a + sep + b + sep + c
  {
    assert [a, b, c][1..] == [b, c];
    JoinPair(b, c, sep);
  }
}
