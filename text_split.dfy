/**
 Python's `str.split(sep, maxsplit)` for a one-character separator: at most
 `maxsplit` cuts, taken from the left at the first occurrences of `sep`, with
 empty pieces kept (`"A__B".split('_', 2)` is `["A", "", "B"]`).
 */
module TextSplit {

  datatype Option<T> = None | Some(value: T)

  /** Number of occurrences of `c` in `s`. */
  function Count(s: string, c: char): nat
  {
    multiset(s)[c]
  }

  function Min(a: nat, b: nat): nat
  {
    if a <= b then a else b
  }

  /** Index of the first occurrence of `c` in `s` (Python's `str.find`, with None for -1). */
  function Find(s: string, c: char): (r: Option<nat>)
    ensures r.Some? ==> r.value < |s| && s[r.value] == c && c !in s[..r.value]
    ensures r.None? ==> c !in s
  {
    if s == [] then None
    else if s[0] == c then Some(0)
    else match Find(s[1..], c)
      case None => None
      case Some(i) =>
        assert s[..i + 1] == [s[0]] + s[1..][..i];
        Some(i + 1)
  }

  /** `s.split(sep, maxsplit)`. */
  function Split(s: string, sep: char, maxsplit: nat): (parts: seq<string>)
    ensures 1 <= |parts| <= maxsplit + 1
    decreases maxsplit
  {
    if maxsplit == 0 then [s]
    else match Find(s, sep)
      case None => [s]
      case Some(i) => [s[..i]] + Split(s[i + 1..], sep, maxsplit - 1)
  }

  /** `sep.join(parts)`: the inverse of Split. */
  function Join(parts: seq<string>, sep: char): string
  {
    if parts == [] then []
    else if |parts| == 1 then parts[0]
    else parts[0] + [sep] + Join(parts[1..], sep)
  }

  /** The first occurrence is the only index holding `c` with no `c` before it. */
  lemma FindIsFirst(s: string, c: char, i: nat)
    requires i < |s| && s[i] == c && c !in s[..i]
    ensures Find(s, c) == Some(i)
  {
  }

  lemma JoinCons(first: string, rest: seq<string>, sep: char)
    requires rest != []
    ensures Join([first] + rest, sep) == first + [sep] + Join(rest, sep)
  {
    assert ([first] + rest)[1..] == rest;
  }

  /** Where the first cut is made. */
  lemma SplitAt(s: string, sep: char, maxsplit: nat, i: nat)
    requires maxsplit > 0 && Find(s, sep) == Some(i)
    ensures Split(s, sep, maxsplit) == [s[..i]] + Split(s[i + 1..], sep, maxsplit - 1)
  {
  }

  /** Two cuts: the pieces before the first separator, between the first two,
      and everything after the second. */
  lemma TwoCuts(s: string, sep: char, i: nat, k: nat)
    requires Find(s, sep) == Some(i) && Find(s[i + 1..], sep) == Some(k)
    ensures i + k + 2 <= |s|
    ensures Split(s, sep, 2) == [s[..i], s[i + 1..i + 1 + k], s[i + k + 2..]]
  {
    var rest := s[i + 1..];
    SplitAt(s, sep, 2, i);
    SplitAt(rest, sep, 1, k);
    assert rest[..k] == s[i + 1..i + 1 + k];
    assert rest[k + 1..] == s[i + k + 2..];
  }

  /** A string is the text before a position, the character there, and the text after. */
  lemma CutAround(s: string, i: nat)
    requires i < |s|
    ensures s == s[..i] + [s[i]] + s[i + 1..]
  {
  }

  /** Cutting at the first separator removes exactly one occurrence of it. */
  lemma CountAfterFirst(s: string, sep: char, i: nat)
    requires i < |s| && s[i] == sep && sep !in s[..i]
    ensures Count(s, sep) == Count(s[i + 1..], sep) + 1
  {
    CutAround(s, i);
    assert multiset(s) == multiset(s[..i]) + multiset{sep} + multiset(s[i + 1..]);
    assert multiset(s[..i])[sep] == 0;
  }

  /** Cutting at the separators and joining with it gives the string back. */
  lemma {:induction false} SplitJoin(s: string, sep: char, maxsplit: nat)
    ensures Join(Split(s, sep, maxsplit), sep) == s
    decreases maxsplit
  {
    if maxsplit > 0 && Find(s, sep).Some? {
      var i := Find(s, sep).value;
      var rest := Split(s[i + 1..], sep, maxsplit - 1);
      calc {
        Join(Split(s, sep, maxsplit), sep);
        { SplitAt(s, sep, maxsplit, i); }
        Join([s[..i]] + rest, sep);
        { JoinCons(s[..i], rest, sep); }
        s[..i] + [sep] + Join(rest, sep);
        { SplitJoin(s[i + 1..], sep, maxsplit - 1); }
        s[..i] + [sep] + s[i + 1..];
        { CutAround(s, i); }
        s;
      }
    }
  }

  /** Every piece but the last is free of the separator. */
  lemma {:induction false} SplitPiecesFree(s: string, sep: char, maxsplit: nat)
    ensures forall j :: 0 <= j < |Split(s, sep, maxsplit)| - 1 ==> sep !in Split(s, sep, maxsplit)[j]
    decreases maxsplit
  {
    if maxsplit > 0 {
      match Find(s, sep)
      case None =>
      case Some(i) =>
        SplitPiecesFree(s[i + 1..], sep, maxsplit - 1);
        var rest := Split(s[i + 1..], sep, maxsplit - 1);
        assert Split(s, sep, maxsplit) == [s[..i]] + rest;
        forall j | 1 <= j < |rest|
          ensures sep !in Split(s, sep, maxsplit)[j]
        {
          assert Split(s, sep, maxsplit)[j] == rest[j - 1];
        }
    }
  }

  /** The number of pieces is one more than the number of cuts actually made. */
  lemma {:induction false} SplitCount(s: string, sep: char, maxsplit: nat)
    ensures |Split(s, sep, maxsplit)| == Min(maxsplit, Count(s, sep)) + 1
    decreases maxsplit
  {
    if maxsplit > 0 {
      if Find(s, sep).None? {
        assert multiset(s)[sep] == 0;
      } else {
        var i := Find(s, sep).value;
        var rest := s[i + 1..];
        calc {
          |Split(s, sep, maxsplit)|;
          { SplitAt(s, sep, maxsplit, i); }
          1 + |Split(rest, sep, maxsplit - 1)|;
          { SplitCount(rest, sep, maxsplit - 1); }
          1 + Min(maxsplit - 1, Count(rest, sep)) + 1;
          Min(maxsplit, Count(rest, sep) + 1) + 1;
          { CountAfterFirst(s, sep, i); }
          Min(maxsplit, Count(s, sep)) + 1;
        }
      }
    }
  }
}
