/**
 * The partition builder (`Processor.transform`): it reads a word list line by line, takes the
 * word quoted on each line, collects the words shorter than the key length for the
 * `.shortnames` file, and writes every other word to the shard file named by its first
 * three characters. A new shard file is opened whenever a word does not start with the
 * current prefix; opening a file truncates it.
 */
module Processor {
  import opened Common
  import opened JavaText

  /** `length` in the source: the number of characters of a shard key. */
  const KeyLength: nat := 3

  /** The terminator written after every word of a shard file. */
  const Crlf: string := "\r\n"

  predicate IsShort(w: string) { |w| < KeyLength }

  /** The shard key of a word that is not short: its first three characters, case kept. */
  function Key(w: string): string
    requires !IsShort(w)
  {
    w[..KeyLength]
  }

  predicate HasKey(w: string, name: string) { !IsShort(w) && Key(w) == name }

  /** The membership test of the shard named `name`, as a value that `Filter` accepts. */
  function KeyIs(name: string): string -> bool { w => HasKey(w, name) }

  // ---------------------------------------------------------------- parsing a source line

  /** `line` holds `w` quoted at position `i`, and that quote is the first one on the line. */
  ghost predicate QuotedAt(line: string, i: nat, w: string) {
    && i + |w| + 1 < |line|
    && line[i] == '"' && line[i + 1 + |w|] == '"'
    && line[i + 1..i + 1 + |w|] == w
    && (forall k :: 0 <= k < i ==> line[k] != '"')
    && (forall k :: 0 <= k < |w| ==> w[k] != '"')
  }

  /** The word of a source line: the text between its first two quote characters, if it has two. */
  function ParseWord(line: string): (r: Option<string>)
    ensures r.None? <==> forall i, j :: 0 <= i < j < |line| ==> !(line[i] == '"' && line[j] == '"')
    ensures r.Some? ==> exists i :: QuotedAt(line, i, r.value)
    ensures r.Some? && NoBreaks(line) ==> NoBreaks(r.value)
  {
    var start := IndexOf(line, '"', 0);
    if start < 0 then None
    else
      var end := IndexOf(line, '"', start + 1);
      if end < 0 then None
      else
        var w := line[start + 1..end];
        assert QuotedAt(line, start, w);
        Some(w)
  }

  /** The words of all source lines that carry one, in line order. */
  function ParsedWords(lines: seq<string>): (ws: seq<string>)
    ensures |ws| <= |lines|
    ensures (forall i :: 0 <= i < |lines| ==> NoBreaks(lines[i])) ==>
              forall i :: 0 <= i < |ws| ==> NoBreaks(ws[i])
  {
    if lines == [] then []
    else
      var init := ParsedWords(lines[..|lines| - 1]);
      match ParseWord(lines[|lines| - 1])
      case None => init
      case Some(w) => init + [w]
  }

  lemma ParsedWordsSnoc(lines: seq<string>, line: string)
    ensures ParsedWords(lines + [line]) ==
            match ParseWord(line) case None => ParsedWords(lines) case Some(w) => ParsedWords(lines) + [w]
  {
    assert (lines + [line])[..|lines|] == lines;
  }

  // ---------------------------------------------------------------- the build, as a fold

  /**
   * What the loop of `transform` has produced so far: the current prefix (null until the first
   * word that is not short), the words written to each shard file since it was last opened,
   * and the short words.
   */
  datatype Build = Build(prefix: Option<string>, shards: map<string, seq<string>>, shortWords: seq<string>)

  /** The open writer belongs to the file named by the current prefix. */
  ghost predicate Open(b: Build) { b.prefix.Some? ==> b.prefix.value in b.shards }

  /** One iteration of the loop of `transform` on one source line. */
  function Step(b: Build, line: string): (r: Build)
    requires Open(b)
    ensures Open(r)
  {
    match ParseWord(line)
    case None => b
    case Some(word) => Place(b, word)
  }

  /** What the loop does with a word it found: a short word, or the shard of its prefix. */
  function Place(b: Build, word: string): (r: Build)
    requires Open(b)
    ensures Open(r)
  {
    if |word| < KeyLength then b.(shortWords := b.shortWords + [word])
    else
      var b' :=
        if b.prefix.None? || !StartsWith(word, b.prefix.value) then
          var p := word[..Min(KeyLength, |word|)];
          b.(prefix := Some(p), shards := b.shards[p := []])
        else b;
      b'.(shards := b'.shards[b'.prefix.value := b'.shards[b'.prefix.value] + [word]])
  }

  /** The state of the loop of `transform` after all of `lines`. */
  function Run(lines: seq<string>): (r: Build)
    ensures Open(r)
  {
    if lines == [] then Build(None, map[], [])
    else Step(Run(lines[..|lines| - 1]), lines[|lines| - 1])
  }

  lemma RunSnoc(lines: seq<string>, line: string)
    ensures Run(lines + [line]) == Step(Run(lines), line)
  {
    assert (lines + [line])[..|lines|] == lines;
  }

  lemma RunNext(lines: seq<string>, i: nat)
    requires i < |lines|
    ensures Run(lines[..i + 1]) == Step(Run(lines[..i]), lines[i])
  {
    assert lines[..i + 1] == lines[..i] + [lines[i]];
    RunSnoc(lines[..i], lines[i]);
  }

  /** The text of each shard file: its words, each followed by CR LF. */
  function ShardFiles(shards: map<string, seq<string>>): (files: map<string, string>)
    ensures files.Keys == shards.Keys
  {
    map n | n in shards :: Terminate(shards[n], Crlf)
  }

  lemma ShardFilesUpdate(shards: map<string, seq<string>>, name: string, ws: seq<string>)
    ensures ShardFiles(shards[name := ws]) == ShardFiles(shards)[name := Terminate(ws, Crlf)]
  {
  }

  /** The directory `transform` leaves behind: the shard files and the `.shortnames` file. */
  function Output(lines: seq<string>, lineSeparator: string): map<string, string> {
    var b := Run(lines);
    ShardFiles(b.shards)[ShortNamesName := Terminate(b.shortWords, lineSeparator)]
  }

  /**
   * The files after one word that is not short: the shard of prefix `p` (reopened empty when
   * the word does not start with the current prefix) gains the word and CR LF.
   */
  lemma PlaceFiles(b: Build, word: string, p: string, reopened: map<string, string>)
    requires Open(b) && !IsShort(word)
    requires p == if b.prefix.None? || !StartsWith(word, b.prefix.value) then word[..KeyLength] else b.prefix.value
    requires reopened == if b.prefix.None? || !StartsWith(word, b.prefix.value)
                       then ShardFiles(b.shards)[p := ""] else ShardFiles(b.shards)
    ensures p in reopened
    ensures Place(b, word).prefix == Some(p)
    ensures ShardFiles(Place(b, word).shards) == reopened[p := reopened[p] + word + ['\r'] + ['\n']]
  {
    var b' := if b.prefix.None? || !StartsWith(word, b.prefix.value)
              then b.(prefix := Some(p), shards := b.shards[p := []]) else b;
    ShardFilesUpdate(b.shards, p, []);
    assert reopened == ShardFiles(b'.shards);
    assert Place(b, word) == b'.(shards := b'.shards[p := b'.shards[p] + [word]]);
    TerminateSnoc(b'.shards[p], word, Crlf);
    assert reopened[p] + word + ['\r'] + ['\n'] == Terminate(b'.shards[p] + [word], Crlf);
    ShardFilesUpdate(b'.shards, p, b'.shards[p] + [word]);
  }

  // ---------------------------------------------------------------- the imperative build

  /**
   * `transform`: `input` stands for the lines of the `.json` word list and `lineSeparator` for
   * the platform separator `writeLines` uses; the result maps each file name in the output
   * directory to its text.
   */
  method Transform(input: seq<string>, lineSeparator: string) returns (files: map<string, string>)
    ensures files == Output(input, lineSeparator)
  {
    var prefix: Option<string> := None;
    var shortWords: seq<string> := [];
    files := map[];
    ghost var b := Run([]);
    var i := 0;
    while i < |input|
      invariant 0 <= i <= |input|
      invariant b == Run(input[..i])
      invariant prefix == b.prefix && shortWords == b.shortWords && files == ShardFiles(b.shards)
    {
      var s := input[i];
      RunNext(input, i);
      var start := IndexOf(s, '"', 0);
      if start >= 0 {
        var end := IndexOf(s, '"', start + 1);
        if end >= 0 {
          var word := s[start + 1..end];
          StepQuoted(b, s, start, end);
          if |word| < KeyLength {
            shortWords := shortWords + [word];
          } else {
            if prefix.None? || !StartsWith(word, prefix.value) {
              prefix := Some(word[..Min(KeyLength, |word|)]);
              // Files.newWriter truncates the file it opens.
              files := files[prefix.value := ""];
            }
            PlaceFiles(b, word, prefix.value, files);
            files := files[prefix.value := files[prefix.value] + word + ['\r'] + ['\n']];
          }
          b := Place(b, word);
        } else {
          StepUnquoted(b, s);
        }
      } else {
        StepUnquoted(b, s);
      }
      i := i + 1;
    }
    assert input[..i] == input;
    files := files[ShortNamesName := Terminate(shortWords, lineSeparator)];
  }

  /** A line with two quotes places the text between the first two, as the loop cuts it out. */
  lemma StepQuoted(b: Build, s: string, start: int, end: int)
    requires Open(b)
    requires start == IndexOf(s, '"', 0) && start >= 0
    requires end == IndexOf(s, '"', start + 1) && end >= 0
    ensures Step(b, s) == Place(b, s[start + 1..end])
  {
  }

  /** A line without two quotes leaves the build alone. */
  lemma StepUnquoted(b: Build, s: string)
    requires Open(b)
    requires IndexOf(s, '"', 0) < 0 || IndexOf(s, '"', IndexOf(s, '"', 0) + 1) < 0
    ensures Step(b, s) == b
  {
  }

  // ---------------------------------------------------------------- what the build promises

  /** Short words go to `.shortnames` only, all of them and in arrival order. */
  lemma {:induction false} RunShortWords(lines: seq<string>)
    ensures Run(lines).shortWords == Filter(IsShort, ParsedWords(lines))
  {
    if lines != [] {
      var init, line := lines[..|lines| - 1], lines[|lines| - 1];
      assert lines == init + [line];
      RunShortWords(init);
      RunSnoc(init, line);
      ParsedWordsSnoc(init, line);
      match ParseWord(line)
      case None =>
      case Some(w) => FilterSnoc(IsShort, ParsedWords(init), w);
    }
  }

  /** The key of the last word that is not short, if any: the prefix the builder holds. */
  function LastKey(ws: seq<string>): (k: Option<string>)
    ensures k.Some? ==> |k.value| == KeyLength
  {
    if ws == [] then None
    else if IsShort(ws[|ws| - 1]) then LastKey(ws[..|ws| - 1])
    else Some(Key(ws[|ws| - 1]))
  }

  lemma LastKeySnoc(ws: seq<string>, w: string)
    ensures LastKey(ws + [w]) == if IsShort(w) then LastKey(ws) else Some(Key(w))
  {
    assert (ws + [w])[..|ws|] == ws;
  }

  /**
   * How the state of the builder relates to the words `ws` parsed so far: the prefix is the key
   * of the last word that is not short, every shard is non-empty and holds only parsed words
   * carrying its name as their exact (case-sensitive) key, and the key of every parsed word
   * that is not short names a shard.
   */
  ghost predicate Keyed(b: Build, ws: seq<string>) {
    && b.prefix == LastKey(ws)
    && (forall n | n in b.shards :: |n| == KeyLength && b.shards[n] != [])
    && (forall n, y | n in b.shards && y in b.shards[n] :: HasKey(y, n) && y in ws)
    && (forall y | y in ws && !IsShort(y) :: Key(y) in b.shards)
  }

  lemma StepKeyedLong(b: Build, ws: seq<string>, line: string, w: string)
    requires Open(b) && Keyed(b, ws)
    requires ParseWord(line) == Some(w) && !IsShort(w)
    ensures Keyed(Step(b, line), ws + [w])
  {
    LastKeySnoc(ws, w);
    var r := Step(b, line);
    if b.prefix == Some(Key(w)) {
      assert StartsWith(w, b.prefix.value);
      assert r.shards == b.shards[Key(w) := b.shards[Key(w)] + [w]];
    } else {
      assert !(b.prefix.Some? && StartsWith(w, b.prefix.value));
      assert w[..Min(KeyLength, |w|)] == Key(w);
      var b' := b.(prefix := Some(Key(w)), shards := b.shards[Key(w) := []]);
      assert r == b'.(shards := b'.shards[Key(w) := b'.shards[Key(w)] + [w]]);
      assert b'.shards[Key(w)] + [w] == [w];
      assert r.shards == b.shards[Key(w) := [w]];
    }
  }

  /** Whatever the input order, the builder's state stays keyed by the words parsed so far. */
  lemma {:induction false} RunShardsKeyed(lines: seq<string>)
    ensures Keyed(Run(lines), ParsedWords(lines))
  {
    if lines != [] {
      var init, line := lines[..|lines| - 1], lines[|lines| - 1];
      assert lines == init + [line];
      RunShardsKeyed(init);
      RunSnoc(init, line);
      ParsedWordsSnoc(init, line);
      match ParseWord(line)
      case None =>
      case Some(w) =>
        if IsShort(w) {
          LastKeySnoc(ParsedWords(init), w);
        } else {
          StepKeyedLong(Run(init), ParsedWords(init), line, w);
        }
    }
  }

  /**
   * Words sharing a key arrive together: each word that is not short either carries the key
   * of the previous such word or a key no earlier word had.
   */
  ghost predicate KeysContiguous(ws: seq<string>)
    decreases |ws|
  {
    if ws == [] then true
    else
      var init, w := ws[..|ws| - 1], ws[|ws| - 1];
      && KeysContiguous(init)
      && (IsShort(w) || LastKey(init) == Some(Key(w)) || Filter(KeyIs(Key(w)), init) == [])
  }

  /** Every shard holds exactly the words of `ws` that carry its key. */
  ghost predicate Exact(b: Build, ws: seq<string>) {
    forall n | n in b.shards :: b.shards[n] == Filter(KeyIs(n), ws)
  }

  lemma StepExact(b: Build, ws: seq<string>, line: string, w: string)
    requires Open(b) && Keyed(b, ws) && Exact(b, ws)
    requires ParseWord(line) == Some(w)
    requires KeysContiguous(ws + [w])
    ensures Exact(Step(b, line), ws + [w])
  {
    assert (ws + [w])[..|ws|] == ws;
    var r := Step(b, line);
    forall n | n in r.shards
      ensures r.shards[n] == Filter(KeyIs(n), ws + [w])
    {
      FilterSnoc(KeyIs(n), ws, w);
      if !IsShort(w) && Key(w) == n {
        if b.prefix == Some(n) {
          assert StartsWith(w, n);
          assert r.shards[n] == b.shards[n] + [w];
        } else {
          assert !(b.prefix.Some? && StartsWith(w, b.prefix.value));
          assert w[..Min(KeyLength, |w|)] == n;
          var b' := b.(prefix := Some(n), shards := b.shards[n := []]);
          assert r == b'.(shards := b'.shards[n := b'.shards[n] + [w]]);
          assert b'.shards[n] + [w] == [w];
        }
      }
    }
  }

  /**
   * On input whose keys arrive together, every shard holds exactly the parsed words with its
   * key, in arrival order: no shard file is reopened, so nothing is truncated away.
   */
  lemma {:induction false} RunContiguous(lines: seq<string>)
    requires KeysContiguous(ParsedWords(lines))
    ensures Exact(Run(lines), ParsedWords(lines))
  {
    if lines != [] {
      var init, line := lines[..|lines| - 1], lines[|lines| - 1];
      assert lines == init + [line];
      RunSnoc(init, line);
      ParsedWordsSnoc(init, line);
      RunShardsKeyed(init);
      var P := ParsedWords(init);
      match ParseWord(line)
      case None =>
        RunContiguous(init);
      case Some(w) =>
        assert (P + [w])[..|P|] == P;
        RunContiguous(init);
        StepExact(Run(init), P, line, w);
    }
  }

  /** Java's `compareTo` order after lower-casing: the order of a sorted word list. */
  ghost predicate SortedFolded(ws: seq<string>) {
    forall i, j :: 0 <= i < j < |ws| ==> LexLe(Lower(ws[i]), Lower(ws[j]))
  }

  /** Every word that is not short is already lower-case in its key. */
  ghost predicate LowerKeys(ws: seq<string>) {
    forall i :: 0 <= i < |ws| && !IsShort(ws[i]) ==> Lower(Key(ws[i])) == Key(ws[i])
  }

  /** Where the key of the last word that is not short comes from. */
  lemma {:induction false} LastKeyIndex(ws: seq<string>) returns (j: int)
    ensures -1 <= j < |ws|
    ensures j == -1 <==> LastKey(ws).None?
    ensures j >= 0 ==> !IsShort(ws[j]) && LastKey(ws) == Some(Key(ws[j]))
    ensures forall t :: j < t < |ws| ==> IsShort(ws[t])
  {
    if ws == [] {
      j := -1;
    } else if IsShort(ws[|ws| - 1]) {
      j := LastKeyIndex(ws[..|ws| - 1]);
    } else {
      j := |ws| - 1;
    }
  }

  /** A word list sorted after lower-casing, with lower-case keys, has its keys together. */
  lemma {:induction false} SortedKeysContiguous(ws: seq<string>)
    requires SortedFolded(ws) && LowerKeys(ws)
    ensures KeysContiguous(ws)
    decreases |ws|
  {
    if ws != [] {
      var init, w := ws[..|ws| - 1], ws[|ws| - 1];
      assert SortedFolded(init) && LowerKeys(init);
      SortedKeysContiguous(init);
      if !IsShort(w) && LastKey(init) != Some(Key(w)) && Filter(KeyIs(Key(w)), init) != [] {
        var y := Filter(KeyIs(Key(w)), init)[0];
        assert y in init && HasKey(y, Key(w));
        var i :| 0 <= i < |init| && init[i] == y;
        var j := LastKeyIndex(init);
        assert i <= j;
        var z := init[j];
        assert i != j;
        LowerPrefix(y, KeyLength);
        LowerPrefix(z, KeyLength);
        LowerPrefix(w, KeyLength);
        assert Lower(y)[..KeyLength] == Lower(w)[..KeyLength];
        SharedPrefixBetween(Lower(y), Lower(z), Lower(w), KeyLength);
        assert false;
      }
    }
  }

  /** Every shard is named by three characters. */
  lemma RunShardNames(lines: seq<string>)
    ensures forall n | n in Run(lines).shards :: |n| == KeyLength
  {
    RunShardsKeyed(lines);
  }

  /** A shard holds only parsed words carrying its name as their key. */
  lemma ShardMember(lines: seq<string>, n: string, y: string)
    requires n in Run(lines).shards
    ensures y in Run(lines).shards[n] ==> HasKey(y, n) && y in ParsedWords(lines)
  {
    RunShardsKeyed(lines);
  }

  /**
   * The build loses and duplicates no short word, whatever the input order: each is in
   * `.shortnames` as often as in the input, and in no shard.
   */
  lemma ShortWordPlacement(lines: seq<string>, w: string)
    requires IsShort(w)
    ensures multiset(Run(lines).shortWords)[w] == multiset(ParsedWords(lines))[w]
    ensures forall n | n in Run(lines).shards :: w !in Run(lines).shards[n]
  {
    var b, P := Run(lines), ParsedWords(lines);
    assert multiset(b.shortWords)[w] == multiset(P)[w] by {
      RunShortWords(lines);
      FilterMultiplicity(IsShort, P, w);
    }
    forall n | n in b.shards
      ensures w !in b.shards[n]
    {
      ShardMember(lines, n, w);
    }
  }

  /** A word of the key length or longer never goes to `.shortnames`, nor to a shard of another key. */
  lemma LongWordElsewhere(lines: seq<string>, w: string)
    requires !IsShort(w)
    ensures w !in Run(lines).shortWords
    ensures forall n | n in Run(lines).shards && n != Key(w) :: w !in Run(lines).shards[n]
  {
    RunShortWords(lines);
    forall n | n in Run(lines).shards && n != Key(w)
      ensures w !in Run(lines).shards[n]
    {
      ShardMember(lines, n, w);
    }
  }

  /**
   * On input whose keys arrive together, the build loses and duplicates no other word either:
   * each is in the shard named by its key as often as in the input.
   */
  lemma LongWordPlacement(lines: seq<string>, w: string)
    requires KeysContiguous(ParsedWords(lines))
    requires !IsShort(w) && w in ParsedWords(lines)
    ensures Key(w) in Run(lines).shards
    ensures multiset(Run(lines).shards[Key(w)])[w] == multiset(ParsedWords(lines))[w]
  {
    var b, P := Run(lines), ParsedWords(lines);
    RunShardsKeyed(lines);
    RunContiguous(lines);
    assert b.shards[Key(w)] == Filter(KeyIs(Key(w)), P);
    FilterMultiplicity(KeyIs(Key(w)), P, w);
  }

  /** A line holding a quoted word, with no quote before it, yields that word. */
  lemma ParseQuoted(head: string, w: string, tail: string)
    requires forall k :: 0 <= k < |head| ==> head[k] != '"'
    requires forall k :: 0 <= k < |w| ==> w[k] != '"'
    ensures ParseWord(head + ['"'] + w + ['"'] + tail) == Some(w)
  {
    var line := head + ['"'] + w + ['"'] + tail;
    var h := |head|;
    assert line[h] == '"';
    assert forall k :: 0 <= k < h ==> line[k] == head[k];
    assert IndexOf(line, '"', 0) == h;
    assert line[h + |w| + 1] == '"';
    assert forall k :: h + 1 <= k < h + |w| + 1 ==> line[k] == w[k - h - 1];
    assert IndexOf(line, '"', h + 1) == h + |w| + 1;
    assert line[h + 1..h + |w| + 1] == w;
  }

  /** A word that does not start with the current prefix opens the shard named by its key. */
  lemma PlaceOpens(b: Build, w: string)
    requires Open(b) && !IsShort(w)
    requires b.prefix.None? || (|b.prefix.value| == KeyLength && b.prefix.value != Key(w))
    ensures Place(b, w) == b.(prefix := Some(Key(w)), shards := b.shards[Key(w) := [w]])
  {
    assert w[..Min(KeyLength, |w|)] == Key(w);
    var b' := b.(prefix := Some(Key(w)), shards := b.shards[Key(w) := []]);
    assert Place(b, w) == b'.(shards := b'.shards[Key(w) := b'.shards[Key(w)] + [w]]);
    assert b'.shards[Key(w)] + [w] == [w];
  }

  /** A word that starts with the current prefix goes to the end of the open shard. */
  lemma PlaceAppends(b: Build, w: string)
    requires Open(b) && !IsShort(w)
    requires b.prefix == Some(Key(w))
    ensures Place(b, w) == b.(shards := b.shards[Key(w) := b.shards[Key(w)] + [w]])
  {
    assert StartsWith(w, Key(w));
  }

  /** The build as a fold over the words the lines hold. */
  function Placed(ws: seq<string>): (r: Build)
    ensures Open(r)
  {
    if ws == [] then Build(None, map[], [])
    else Place(Placed(ws[..|ws| - 1]), ws[|ws| - 1])
  }

  lemma PlacedSnoc(ws: seq<string>, w: string)
    ensures Placed(ws + [w]) == Place(Placed(ws), w)
  {
    assert (ws + [w])[..|ws|] == ws;
  }

  /** The build depends on the lines only through the words they quote. */
  lemma {:induction false} RunPlaced(lines: seq<string>)
    ensures Run(lines) == Placed(ParsedWords(lines))
  {
    if lines != [] {
      var init, last := lines[..|lines| - 1], lines[|lines| - 1];
      assert lines == init + [last];
      RunPlaced(init);
      RunSnoc(init, last);
      ParsedWordsSnoc(init, last);
      match ParseWord(last)
      case None =>
      case Some(w) => PlacedSnoc(ParsedWords(init), w);
    }
  }
}
