/**
 * The string database: an archive of named entries, each a list of lines (one word per
 * line), queried by enumeration, counting, filtering and word resolution.
 *
 * The archive is the sequence of its entries in the order the archive lists them; each entry's
 * lines are the lines a reader of that entry returns, in order.
 */
module StrDb {
  import opened Common
  import opened JavaText

  /** A Java `int`: the type of `prefixLength`, of `limit` and of the counters. */
  type Int32 = x: int | -0x8000_0000 <= x < 0x8000_0000

  /** Java `int` arithmetic: `n` wrapped into the 32-bit two's complement range. */
  function ToInt32(n: int): (r: Int32)
    ensures -0x8000_0000 <= n < 0x8000_0000 ==> r == n
    ensures (r - n) % 0x1_0000_0000 == 0
  {
    (n + 0x8000_0000) % 0x1_0000_0000 - 0x8000_0000
  }

  lemma ToInt32Succ(n: int)
    ensures ToInt32(ToInt32(n) + 1) == ToInt32(n + 1)
  {
    var m := 0x1_0000_0000;
    var q := (n + 0x8000_0000) / m;
    assert n + 0x8000_0000 == q * m + (n + 0x8000_0000) % m;
    assert ToInt32(n) + 1 + 0x8000_0000 == (n + 1 + 0x8000_0000) - q * m;
  }

  // ---------------------------------------------------------------- the archive

  datatype Entry = Entry(name: string, lines: seq<string>)

  /** Every line of the archive: entry after entry, each entry's lines in order. */
  function AllLines(archive: seq<Entry>): (all: seq<string>)
  {
    if archive == [] then []
    else AllLines(archive[..|archive| - 1]) + archive[|archive| - 1].lines
  }

  lemma AllLinesSnoc(archive: seq<Entry>, e: Entry)
    ensures AllLines(archive + [e]) == AllLines(archive) + e.lines
  {
    assert (archive + [e])[..|archive|] == archive;
  }

  lemma AllLinesNext(archive: seq<Entry>, e: nat)
    requires e < |archive|
    ensures AllLines(archive[..e + 1]) == AllLines(archive[..e]) + archive[e].lines
  {
    assert archive[..e + 1] == archive[..e] + [archive[e]];
    AllLinesSnoc(archive[..e], archive[e]);
  }

  /** The rest of the archive after entry e, line i: enumeration splits there. */
  lemma AllLinesSplit(archive: seq<Entry>, e: nat, i: nat)
    requires e < |archive| && i <= |archive[e].lines|
    ensures AllLines(archive) ==
            (AllLines(archive[..e]) + archive[e].lines[..i]) + (archive[e].lines[i..] + AllLines(archive[e + 1..]))
  {
    var lines := archive[e].lines;
    assert archive == archive[..e] + ([archive[e]] + archive[e + 1..]);
    AllLinesAppend(archive[..e], [archive[e]] + archive[e + 1..]);
    AllLinesCons(archive[e], archive[e + 1..]);
    assert lines == lines[..i] + lines[i..];
  }

  /** The number of lines over all entries. */
  function TotalLines(archive: seq<Entry>): nat {
    if archive == [] then 0 else |archive[0].lines| + TotalLines(archive[1..])
  }

  /** Enumeration has as many lines as all the entries together. */
  lemma {:induction false} AllLinesCount(archive: seq<Entry>)
    ensures |AllLines(archive)| == TotalLines(archive)
    decreases |archive|
  {
    if archive != [] {
      var rest := archive[1..];
      AllLinesCount(rest);
      AllLinesCons(archive[0], rest);
      assert [archive[0]] + rest == archive;
    }
  }

  lemma {:induction false} AllLinesCons(e: Entry, archive: seq<Entry>)
    ensures AllLines([e] + archive) == e.lines + AllLines(archive)
    decreases |archive|
  {
    if archive == [] {
      assert [e] + archive == [] + [e];
      AllLinesSnoc([], e);
    } else {
      var init, last := archive[..|archive| - 1], archive[|archive| - 1];
      assert archive == init + [last];
      assert [e] + archive == ([e] + init) + [last];
      AllLinesSnoc([e] + init, last);
      AllLinesCons(e, init);
      AllLinesSnoc(init, last);
    }
  }

  /**
   * Entry-then-line order: line j of entry k is enumerated right after every line of the
   * entries before k and the lines of entry k before j.
   */
  lemma AllLinesOrder(archive: seq<Entry>, k: nat, j: nat)
    requires k < |archive| && j < |archive[k].lines|
    ensures |AllLines(archive[..k])| + j < |AllLines(archive)|
    ensures AllLines(archive)[|AllLines(archive[..k])| + j] == archive[k].lines[j]
  {
    var before, rest := archive[..k], archive[k + 1..];
    assert archive == before + ([archive[k]] + rest);
    AllLinesAppend(before, [archive[k]] + rest);
    AllLinesCons(archive[k], rest);
  }

  lemma {:induction false} AllLinesAppend(xs: seq<Entry>, ys: seq<Entry>)
    ensures AllLines(xs + ys) == AllLines(xs) + AllLines(ys)
    decreases |ys|
  {
    if ys == [] {
      assert xs + ys == xs;
    } else {
      var init, last := ys[..|ys| - 1], ys[|ys| - 1];
      assert ys == init + [last];
      assert xs + ys == (xs + init) + [last];
      AllLinesSnoc(xs + init, last);
      AllLinesAppend(xs, init);
      AllLinesSnoc(init, last);
    }
  }

  /** `zipFile.getEntry(name)`: the entry of that name; when the name repeats, the model takes the first. */
  function GetEntry(archive: seq<Entry>, name: string): (r: Option<Entry>)
    ensures r.Some? ==> r.value in archive && r.value.name == name
    ensures r.None? <==> forall k :: 0 <= k < |archive| ==> archive[k].name != name
  {
    if archive == [] then None
    else if archive[0].name == name then Some(archive[0])
    else GetEntry(archive[1..], name)
  }

  // ---------------------------------------------------------------- feeding a line processor

  /** A line processor's state, and whether it asked to stop. */
  datatype Progress<S> = Going(state: S) | Stopped(state: S)

  /**
   * Feeding `lines` one by one to `processLine`: each call returns whether to go on and the
   * processor's new state; once it has said stop, no further line is fed.
   */
  function Feed<S>(processLine: (S, string) -> (bool, S), p: Progress<S>, lines: seq<string>): Progress<S>
  {
    if lines == [] then p
    else
      var q := Feed(processLine, p, lines[..|lines| - 1]);
      if q.Stopped? then q
      else
        var (goOn, s) := processLine(q.state, lines[|lines| - 1]);
        if goOn then Going(s) else Stopped(s)
  }

  lemma FeedSnoc<S>(processLine: (S, string) -> (bool, S), p: Progress<S>, lines: seq<string>, line: string)
    ensures Feed(processLine, p, lines + [line]) ==
      var q := Feed(processLine, p, lines);
      if q.Stopped? then q
      else if processLine(q.state, line).0 then Going(processLine(q.state, line).1)
      else Stopped(processLine(q.state, line).1)
  {
    assert (lines + [line])[..|lines|] == lines;
  }

  /** A processor that has stopped sees no more lines. */
  lemma {:induction false} FeedStopped<S>(processLine: (S, string) -> (bool, S), s: S, lines: seq<string>)
    ensures Feed(processLine, Stopped(s), lines) == Stopped(s)
  {
    if lines != [] {
      FeedStopped(processLine, s, lines[..|lines| - 1]);
    }
  }

  lemma {:induction false} FeedAppend<S>(processLine: (S, string) -> (bool, S), p: Progress<S>, xs: seq<string>, ys: seq<string>)
    ensures Feed(processLine, p, xs + ys) == Feed(processLine, Feed(processLine, p, xs), ys)
    decreases |ys|
  {
    if ys == [] {
      assert xs + ys == xs;
    } else {
      var init, last := ys[..|ys| - 1], ys[|ys| - 1];
      assert ys == init + [last];
      assert xs + ys == (xs + init) + [last];
      FeedAppend(processLine, p, xs, init);
      FeedSnoc(processLine, p, xs + init, last);
      FeedSnoc(processLine, Feed(processLine, p, xs), init, last);
    }
  }

  /**
   * The first line on which the processor says stop ends the feed: the result is the state
   * it returned for that line, whatever follows.
   */
  lemma FeedStopsAt<S>(processLine: (S, string) -> (bool, S), init: S, lines: seq<string>, k: nat)
    requires k < |lines| && Feed(processLine, Going(init), lines[..k]).Going?
    requires !processLine(Feed(processLine, Going(init), lines[..k]).state, lines[k]).0
    ensures Feed(processLine, Going(init), lines) ==
            Stopped(processLine(Feed(processLine, Going(init), lines[..k]).state, lines[k]).1)
  {
    SplitAt(lines, k);
    FeedStopsOn(processLine, init, lines[..k], lines[k], lines[k + 1..], lines);
  }

  /** The lines before `k`, line `k` and the lines after it make up the whole. */
  lemma SplitAt(lines: seq<string>, k: nat)
    requires k < |lines|
    ensures lines == lines[..k] + [lines[k]] + lines[k + 1..]
  {
  }

  /** `FeedStopsAt` with the lines split around the stopping line. */
  lemma FeedStopsOn<S>(processLine: (S, string) -> (bool, S), init: S, before: seq<string>, line: string, after: seq<string>, lines: seq<string>)
    requires lines == before + [line] + after
    requires Feed(processLine, Going(init), before).Going?
    requires !processLine(Feed(processLine, Going(init), before).state, line).0
    ensures Feed(processLine, Going(init), lines) ==
            Stopped(processLine(Feed(processLine, Going(init), before).state, line).1)
  {
    FeedSnoc(processLine, Going(init), before, line);
    FeedStoppedPrefix(processLine, Going(init), before + [line], after);
  }

  /** Lines after the one that stopped the processor change nothing. */
  lemma FeedStoppedPrefix<S>(processLine: (S, string) -> (bool, S), p: Progress<S>, head: seq<string>, tail: seq<string>)
    requires Feed(processLine, p, head).Stopped?
    ensures Feed(processLine, p, head + tail) == Feed(processLine, p, head)
  {
    FeedAppend(processLine, p, head, tail);
    FeedStopped(processLine, Feed(processLine, p, head).state, tail);
  }

  // ---------------------------------------------------------------- the processors of getCount and where

  /** The counting processor of `getCount`: `count++` on a Java `int`, and never stop. */
  function CountLine(count: Int32, line: string): (bool, Int32) {
    (true, ToInt32(count + 1))
  }

  /** Counting from zero ends with the number of lines fed, as a Java `int`. */
  lemma {:induction false} FeedCount(lines: seq<string>)
    ensures Feed(CountLine, Going(0), lines) == Going(ToInt32(|lines|))
  {
    if lines != [] {
      var init := lines[..|lines| - 1];
      FeedCount(init);
      FeedSnoc(CountLine, Going(0), init, lines[|lines| - 1]);
      assert lines == init + [lines[|lines| - 1]];
      ToInt32Succ(|init|);
    }
  }

  /** The state of the processor of `where`: its `found` counter and the list builder it fills. */
  datatype Collector = Collector(found: int, builder: seq<string>)

  /** The processor of `where(test, limit)`. */
  function Collecting(test: string -> bool, limit: Int32): (Collector, string) -> (bool, Collector) {
    (c: Collector, line: string) =>
      if test(line) then
        var c' := Collector(c.found + 1, c.builder + [line]);
        (!(limit != -1 && c'.found >= limit), c')
      else (true, c)
  }

  /** The part of the matches `where` keeps: all of them for limit -1, otherwise the first max(limit, 1). */
  function Kept(limit: int, all: seq<string>): seq<string>
  {
    if limit == -1 then all else all[..Min(|all|, Max(limit, 1))]
  }

  /**
   * What `where` collects from `lines`: every match when `limit` is -1, otherwise the matches
   * up to and including the one that brings `found` to `limit` (the first one, when `limit`
   * is below 1).
   */
  function Selected(test: string -> bool, limit: int, lines: seq<string>): (r: seq<string>)
  {
    Kept(limit, Filter(test, lines))
  }

  /** Whether the processor of `where` has stopped after collecting `all`. */
  predicate LimitReached(limit: int, all: seq<string>) {
    limit != -1 && |all| >= Max(limit, 1)
  }

  /** One more line for a processor of `where` that has not stopped yet. */
  lemma CollectingStep(test: string -> bool, limit: Int32, before: seq<string>, line: string)
    requires !LimitReached(limit, before)
    ensures var all := if test(line) then before + [line] else before;
            Collecting(test, limit)(Collector(|before|, before), line) == (!LimitReached(limit, all), Collector(|all|, all))
  {
  }

  /** At most one more match either leaves what is kept alone (the limit was reached) or is kept too. */
  lemma KeptSnoc(limit: int, before: seq<string>, extra: seq<string>)
    requires |extra| <= 1
    ensures Kept(limit, before + extra) == if LimitReached(limit, before) then Kept(limit, before) else before + extra
  {
    var all, m := before + extra, Max(limit, 1);
    if limit != -1 && |before| >= m {
      assert all[..m] == before[..m];
    } else if limit != -1 {
      assert all[..|all|] == all;
    }
  }

  /** One more line either leaves the selection alone (the limit was reached) or extends it with its match. */
  lemma SelectedSnoc(test: string -> bool, limit: Int32, init: seq<string>, line: string)
    ensures Selected(test, limit, init + [line]) ==
            if LimitReached(limit, Filter(test, init)) then Selected(test, limit, init) else Filter(test, init + [line])
  {
    FilterSnoc(test, init, line);
    KeptSnoc(limit, Filter(test, init), if test(line) then [line] else []);
  }

  /** Feeding the processor of `where` collects `Selected`, and stops exactly when the limit is reached. */
  lemma {:induction false} FeedCollecting(test: string -> bool, limit: Int32, lines: seq<string>)
    ensures var all, sel := Filter(test, lines), Selected(test, limit, lines);
            Feed(Collecting(test, limit), Going(Collector(0, [])), lines) ==
            (if LimitReached(limit, all) then Stopped(Collector(|sel|, sel)) else Going(Collector(|sel|, sel)))
  {
    if lines != [] {
      var init, last := lines[..|lines| - 1], lines[|lines| - 1];
      assert lines == init + [last];
      FeedCollecting(test, limit, init);
      FeedSnoc(Collecting(test, limit), Going(Collector(0, [])), init, last);
      FilterSnoc(test, init, last);
      SelectedSnoc(test, limit, init, last);
      var before := Filter(test, init);
      if LimitReached(limit, before) {
        assert LimitReached(limit, Filter(test, lines));
      } else {
        assert before[..|before|] == before;
        assert Selected(test, limit, init) == before;
        CollectingStep(test, limit, before, last);
        assert before + [] == before;
      }
    }
  }

  // ---------------------------------------------------------------- resolution

  /** Why `resolve` fails where the source throws. */
  datatype Error =
    | ShortNamesMissing    // `getInputStream(null)`: the short-names entry does not exist
    | PrefixOutOfRange     // `substring(0, prefixLength)` with a negative `prefixLength`

  /** The line-by-line test of `resolve`: equal, or equal after lower-casing both. */
  predicate Matches(line: string, word: string, matchCase: bool) {
    if matchCase then line == word else Lower(line) == Lower(word)
  }

  /** The first of `lines` that matches `word`, as the scan of `resolve` returns it. */
  function FirstMatch(lines: seq<string>, word: string, matchCase: bool): (m: Option<string>)
    ensures m.Some? ==> exists i :: 0 <= i < |lines| && lines[i] == m.value && Matches(m.value, word, matchCase) &&
                          forall j :: 0 <= j < i ==> !Matches(lines[j], word, matchCase)
    ensures m.None? <==> forall i :: 0 <= i < |lines| ==> !Matches(lines[i], word, matchCase)
  {
    if lines == [] then None
    else if Matches(lines[0], word, matchCase) then
      Some(lines[0])
    else
      var m := FirstMatch(lines[1..], word, matchCase);
      if m.Some? then
        var i :| 0 <= i < |lines[1..]| && lines[1..][i] == m.value && Matches(m.value, word, matchCase) &&
                 forall j :: 0 <= j < i ==> !Matches(lines[1..][j], word, matchCase);
        assert lines[i + 1] == m.value && forall j :: 0 <= j < i + 1 ==> !Matches(lines[j], word, matchCase);
        m
      else m
  }

  /** A line read after all the others is returned only when none of them matches. */
  lemma {:induction false} FirstMatchSnoc(lines: seq<string>, x: string, word: string, matchCase: bool)
    ensures FirstMatch(lines + [x], word, matchCase) ==
            if FirstMatch(lines, word, matchCase).Some? then FirstMatch(lines, word, matchCase)
            else if Matches(x, word, matchCase) then Some(x) else None
    decreases |lines|
  {
    if lines == [] {
      assert ([] + [x])[1..] == [];
    } else {
      assert (lines + [x])[0] == lines[0];
      assert (lines + [x])[1..] == lines[1..] + [x];
      FirstMatchSnoc(lines[1..], x, word, matchCase);
    }
  }

  /** Leaving out lines that cannot match does not change what the scan returns. */
  lemma {:induction false} FirstMatchFilter(f: string -> bool, lines: seq<string>, word: string, matchCase: bool)
    requires forall i :: 0 <= i < |lines| && Matches(lines[i], word, matchCase) ==> f(lines[i])
    ensures FirstMatch(Filter(f, lines), word, matchCase) == FirstMatch(lines, word, matchCase)
    decreases |lines|
  {
    if lines != [] {
      var init, x := lines[..|lines| - 1], lines[|lines| - 1];
      assert lines == init + [x];
      FirstMatchFilter(f, init, word, matchCase);
      FilterSnoc(f, init, x);
      FirstMatchSnoc(init, x, word, matchCase);
      if f(x) {
        FirstMatchSnoc(Filter(f, init), x, word, matchCase);
      } else {
        assert Filter(f, init) + [] == Filter(f, init);
      }
    }
  }

  /**
   * What `resolve(word, matchCase)` returns (`Success(None)` for null) or throws, on an
   * archive whose short-names entry is `basePath + ".shortnames"`.
   */
  function ResolveSpec(archive: seq<Entry>, basePath: string, prefixLength: Int32, word: string, matchCase: bool)
    : (r: Result<Option<string>, Error>)
  {
    if |word| < prefixLength then
      match GetEntry(archive, basePath + ShortNamesName)
      case None => Failure(ShortNamesMissing)
      case Some(e) => Success(FirstMatch(e.lines, word, matchCase))
    else if prefixLength < 0 then Failure(PrefixOutOfRange)
    else
      match GetEntry(archive, Lower(word[..prefixLength]))
      case None => Success(None)
      case Some(e) => Success(FirstMatch(e.lines, word, matchCase))
  }

  /** The one entry `resolve` reads: the short-names entry, or the entry of the lower-cased prefix. */
  function ConsultedName(basePath: string, prefixLength: Int32, word: string): (n: Option<string>)
    ensures n.None? <==> !(|word| < prefixLength) && prefixLength < 0
  {
    if |word| < prefixLength then Some(basePath + ShortNamesName)
    else if prefixLength < 0 then None
    else Some(Lower(word[..prefixLength]))
  }

  /** Resolution reads the consulted entry and nothing else: archives that agree on it agree on the result. */
  lemma ResolveReadsOnlyConsulted(a: seq<Entry>, b: seq<Entry>, basePath: string, prefixLength: Int32,
                                  word: string, matchCase: bool)
    requires var n := ConsultedName(basePath, prefixLength, word);
             n.Some? ==> GetEntry(a, n.value) == GetEntry(b, n.value)
    ensures ResolveSpec(a, basePath, prefixLength, word, matchCase) == ResolveSpec(b, basePath, prefixLength, word, matchCase)
  {
  }

  /** A word no shorter than the prefix whose shard is absent resolves to null. */
  lemma ResolveAbsentShard(archive: seq<Entry>, basePath: string, prefixLength: Int32, word: string, matchCase: bool)
    requires 0 <= prefixLength <= |word|
    requires forall k :: 0 <= k < |archive| ==> archive[k].name != Lower(word[..prefixLength])
    ensures ResolveSpec(archive, basePath, prefixLength, word, matchCase) == Success(None)
  {
  }

  /**
   * A successful resolution returns a line of the consulted entry that matches the word
   * (equal to it when matching case) and no earlier line of that entry matches; null means
   * no line of the entry matches.
   */
  lemma ResolveFirstMatch(archive: seq<Entry>, basePath: string, prefixLength: Int32, word: string, matchCase: bool)
    requires ConsultedName(basePath, prefixLength, word).Some?
    requires GetEntry(archive, ConsultedName(basePath, prefixLength, word).value).Some?
    ensures var e := GetEntry(archive, ConsultedName(basePath, prefixLength, word).value).value;
            var r := ResolveSpec(archive, basePath, prefixLength, word, matchCase);
            r.Success? &&
            (r.value.Some? ==>
               (matchCase ==> r.value.value == word) &&
               (!matchCase ==> Lower(r.value.value) == Lower(word)) &&
               exists i :: 0 <= i < |e.lines| && e.lines[i] == r.value.value &&
                           forall j :: 0 <= j < i ==> !Matches(e.lines[j], word, matchCase)) &&
            (r.value.None? <==> forall i :: 0 <= i < |e.lines| ==> !Matches(e.lines[i], word, matchCase))
  {
  }

  // ---------------------------------------------------------------- the database

  /** A string database over an archive, with the base path of its short-names entry and the prefix length. */
  class StrDb {
    const archive: seq<Entry>
    const basePath: string
    const prefixLength: Int32

    constructor(archive: seq<Entry>, basePath: string, prefixLength: Int32)
      ensures this.archive == archive && this.basePath == basePath && this.prefixLength == prefixLength
    {
      this.archive := archive;
      this.basePath := basePath;
      this.prefixLength := prefixLength;
    }

    /** `words(consumer)`: the consumer receives every line, entry after entry; `fed` is what it receives. */
    method Words() returns (fed: seq<string>)
      ensures fed == AllLines(archive)
    {
      fed := [];
      var e := 0;
      while e < |archive|
        invariant 0 <= e <= |archive|
        invariant fed == AllLines(archive[..e])
      {
        var lines := archive[e].lines;
        ghost var done := fed;
        var i := 0;
        while i < |lines|
          invariant 0 <= i <= |lines|
          invariant fed == done + lines[..i]
        {
          fed := fed + [lines[i]];
          assert lines[..i + 1] == lines[..i] + [lines[i]];
          i := i + 1;
        }
        assert lines[..i] == lines;
        AllLinesNext(archive, e);
        e := e + 1;
      }
      assert archive[..e] == archive;
    }

    /**
     * `words(processor)`: feeds the lines, entry after entry, to `processLine` until it says
     * stop, and returns `getResult` of the state at that point.
     */
    method WordsUntil<S, T>(processLine: (S, string) -> (bool, S), getResult: S -> T, init: S) returns (r: T)
      ensures r == getResult(Feed(processLine, Going(init), AllLines(archive)).state)
    {
      var state := init;
      ghost var fed: seq<string> := [];
      var e := 0;
      while e < |archive|
        invariant 0 <= e <= |archive|
        invariant fed == AllLines(archive[..e])
        invariant Feed(processLine, Going(init), fed) == Going(state)
      {
        var lines := archive[e].lines;
        ghost var done := fed;
        var i := 0;
        while i < |lines|
          invariant 0 <= i <= |lines|
          invariant fed == done + lines[..i]
          invariant Feed(processLine, Going(init), fed) == Going(state)
        {
          var (goOn, next) := processLine(state, lines[i]);
          FeedSnoc(processLine, Going(init), fed, lines[i]);
          fed := fed + [lines[i]];
          assert lines[..i + 1] == lines[..i] + [lines[i]];
          if !goOn {
            assert fed == done + lines[..i + 1];
            assert Feed(processLine, Going(init), fed) == Stopped(next);
            FeedRest(processLine, init, e, i, next);
            return getResult(next);
          }
          state := next;
          i := i + 1;
        }
        assert lines[..i] == lines;
        AllLinesNext(archive, e);
        e := e + 1;
      }
      assert archive[..e] == archive;
      return getResult(state);
    }

    /** Once the processor stops on line i of entry e, the rest of the archive changes nothing. */
    lemma FeedRest<S>(processLine: (S, string) -> (bool, S), init: S, e: nat, i: nat, last: S)
      requires e < |archive| && i < |archive[e].lines|
      requires Feed(processLine, Going(init), AllLines(archive[..e]) + archive[e].lines[..i + 1]) == Stopped(last)
      ensures Feed(processLine, Going(init), AllLines(archive)) == Stopped(last)
    {
      var head := AllLines(archive[..e]) + archive[e].lines[..i + 1];
      var tail := archive[e].lines[i + 1..] + AllLines(archive[e + 1..]);
      AllLinesSplit(archive, e, i + 1);
      FeedAppend(processLine, Going(init), head, tail);
      FeedStopped(processLine, last, tail);
    }

    /** `getCount()`: the number of lines over all entries, as a Java `int`. */
    method GetCount() returns (count: Int32)
      ensures count == ToInt32(TotalLines(archive))
      ensures TotalLines(archive) < 0x8000_0000 ==> count == TotalLines(archive)
    {
      count := WordsUntil(CountLine, (c: Int32) => c, 0);
      FeedCount(AllLines(archive));
      AllLinesCount(archive);
    }

    /** `where(predicate)`: every line that satisfies the predicate, in enumeration order. */
    method Where(test: string -> bool) returns (r: seq<string>)
      ensures r == Filter(test, AllLines(archive))
    {
      r := WhereLimit(test, -1);
    }

    /**
     * `where(test, limit)`: the matching lines in enumeration order, all of them when
     * `limit` is -1, otherwise the first `limit` of them (the first one alone when `limit` is 0
     * or below -1).
     */
    method WhereLimit(test: string -> bool, limit: Int32) returns (r: seq<string>)
      ensures limit == -1 ==> r == Filter(test, AllLines(archive))
      ensures limit != -1 ==> |r| <= |Filter(test, AllLines(archive))| && r == Filter(test, AllLines(archive))[..|r|]
      ensures limit >= 1 ==> |r| == Min(limit, |Filter(test, AllLines(archive))|)
      ensures limit != -1 && limit < 1 ==> |r| == Min(1, |Filter(test, AllLines(archive))|)
    {
      r := WordsUntil(Collecting(test, limit), (c: Collector) => c.builder, Collector(0, []));
      FeedCollecting(test, limit, AllLines(archive));
    }

    /** `resolve(word, matchCase)`: the first matching line of the consulted entry, null, or the exception. */
    method ResolveWithCase(word: string, matchCase: bool) returns (r: Result<Option<string>, Error>)
      ensures r == ResolveSpec(archive, basePath, prefixLength, word, matchCase)
    {
      if |word| < prefixLength {
        var entry := GetEntry(archive, basePath + ShortNamesName);
        if entry.None? {
          return Failure(ShortNamesMissing);
        }
        var line := ScanLines(entry.value.lines, word, matchCase);
        return Success(line);
      } else {
        if prefixLength < 0 {
          return Failure(PrefixOutOfRange);
        }
        var entry := GetEntry(archive, Lower(word[..prefixLength]));
        if entry.None? {
          return Success(None);
        }
        var line := ScanLines(entry.value.lines, word, matchCase);
        return Success(line);
      }
    }

    /** `resolve(word)`: resolution in any casing. */
    method Resolve(word: string) returns (r: Result<Option<string>, Error>)
      ensures r == ResolveSpec(archive, basePath, prefixLength, word, false)
    {
      r := ResolveWithCase(word, false);
    }

    /** `contains(word, matchCase)`: whether resolution finds a line. */
    method ContainsWithCase(word: string, matchCase: bool) returns (r: Result<bool, Error>)
      ensures var s := ResolveSpec(archive, basePath, prefixLength, word, matchCase);
              (r.Success? <==> s.Success?) && (r.Failure? ==> r.error == s.error) &&
              (r.Success? ==> (r.value <==> s.value.Some?))
    {
      var found := ResolveWithCase(word, matchCase);
      match found
      case Failure(error) => return Failure(error);
      case Success(line) => return Success(line.Some?);
    }

    /** `contains(word)`: containment in any casing. */
    method Contains(word: string) returns (r: Result<bool, Error>)
      ensures var s := ResolveSpec(archive, basePath, prefixLength, word, false);
              (r.Success? <==> s.Success?) && (r.Failure? ==> r.error == s.error) &&
              (r.Success? ==> (r.value <==> s.value.Some?))
    {
      r := ContainsWithCase(word, false);
    }
  }

  /** The scan of `resolve`: read the lines in order and return the first that matches. */
  method ScanLines(lines: seq<string>, word: string, matchCase: bool) returns (r: Option<string>)
    ensures r == FirstMatch(lines, word, matchCase)
  {
    var i := 0;
    while i < |lines|
      invariant 0 <= i <= |lines|
      invariant FirstMatch(lines[i..], word, matchCase) == FirstMatch(lines, word, matchCase)
    {
      var line := lines[i];
      var equal := if matchCase then line == word else Lower(line) == Lower(word);
      if equal {
        return Some(line);
      }
      assert lines[i..][1..] == lines[i + 1..];
      i := i + 1;
    }
    return None;
  }
}
