/**
 * The two halves together: the files `transform` writes, packed into an archive, queried with
 * `resolve`. With a base path of "" and a prefix length equal to the key length, every word of
 * a sorted word list whose words' first three characters are lower-case resolves to itself and
 * nothing else resolves; with any other base path the shards are never found, because `resolve`
 * looks them up without the base path.
 */
module BuildThenQuery {
  import opened Common
  import opened JavaText
  import opened Processor
  import opened StrDb

  /**
   * `archive` holds the files of `files` under `basePath`: every entry is named `basePath`
   * followed by the name of one of the files, and every file has an entry whose lines are what
   * a reader gets from the file's text.
   */
  ghost predicate PackedUnder(archive: seq<Entry>, basePath: string, files: map<string, string>) {
    && (forall k | 0 <= k < |archive| :: StartsWith(archive[k].name, basePath) && archive[k].name[|basePath|..] in files)
    && (forall n | n in files :: GetEntry(archive, basePath + n).Some? && GetEntry(archive, basePath + n).value.lines == ReadLines(files[n]))
  }

  /** The lines of the word list hold no line breaks, so every word written reads back as one line. */
  ghost predicate NoBreakLines(input: seq<string>) {
    forall i :: 0 <= i < |input| ==> NoBreaks(input[i])
  }

  /** A word list as the build expects it: no line breaks, sorted after lower-casing, lower-case keys. */
  ghost predicate WellFormed(input: seq<string>) {
    && NoBreakLines(input)
    && SortedFolded(ParsedWords(input))
    && LowerKeys(ParsedWords(input))
  }

  /** The output directory holds the shard files, named by three characters, and `.shortnames`. */
  lemma OutputNames(input: seq<string>, lineSeparator: string)
    ensures ShortNamesName in Output(input, lineSeparator)
    ensures forall m | m in Output(input, lineSeparator) :: m == ShortNamesName || (|m| == KeyLength && m in Run(input).shards)
  {
    RunShardNames(input);
  }

  /** The short-names entry exists and reads back as the short words, in arrival order. */
  lemma ShortNamesEntry(input: seq<string>, lineSeparator: string, archive: seq<Entry>, basePath: string)
    requires IsLineSeparator(lineSeparator) && NoBreakLines(input)
    requires PackedUnder(archive, basePath, Output(input, lineSeparator))
    ensures GetEntry(archive, basePath + ShortNamesName).Some?
    ensures GetEntry(archive, basePath + ShortNamesName).value.lines == Run(input).shortWords
  {
    var short := Run(input).shortWords;
    RunShortWords(input);
    OutputNames(input, lineSeparator);
    ReadLinesTerminate(short, lineSeparator);
  }

  /** A shard's entry exists and reads back as the shard's words (base path ""), whatever the input order. */
  lemma ShardEntry(input: seq<string>, lineSeparator: string, archive: seq<Entry>, n: string)
    requires NoBreakLines(input)
    requires PackedUnder(archive, "", Output(input, lineSeparator))
    requires n in Run(input).shards
    ensures GetEntry(archive, n).Some? && GetEntry(archive, n).value.lines == Run(input).shards[n]
    ensures forall i :: 0 <= i < |Run(input).shards[n]| ==> Run(input).shards[n][i] in ParsedWords(input)
  {
    RunShardNames(input);
    var ws := Run(input).shards[n];
    forall i | 0 <= i < |ws|
      ensures ws[i] in ParsedWords(input)
    {
      ShardMember(input, n, ws[i]);
    }
    assert |n| != |ShortNamesName|;
    assert Output(input, lineSeparator)[n] == Terminate(ws, Crlf);
    ReadLinesTerminate(ws, Crlf);
    assert "" + n == n;
  }

  /** Every entry of the archive belongs to one of the files. */
  lemma EntryName(input: seq<string>, lineSeparator: string, archive: seq<Entry>, basePath: string, m: string)
    requires PackedUnder(archive, basePath, Output(input, lineSeparator))
    requires GetEntry(archive, m).Some?
    ensures StartsWith(m, basePath)
    ensures m[|basePath|..] == ShortNamesName || (|m[|basePath|..]| == KeyLength && m[|basePath|..] in Run(input).shards)
  {
    var k :| 0 <= k < |archive| && archive[k] == GetEntry(archive, m).value;
    OutputNames(input, lineSeparator);
  }

  /** The key of a parsed word that is not short is its own lower-cased prefix. */
  lemma KeyOfWord(input: seq<string>, w: string)
    requires WellFormed(input) && w in ParsedWords(input) && !IsShort(w)
    ensures Lower(w[..KeyLength]) == Key(w)
    ensures Key(w) in Run(input).shards && w in Run(input).shards[Key(w)]
  {
    var P := ParsedWords(input);
    var i :| 0 <= i < |P| && P[i] == w;
    SortedKeysContiguous(P);
    LongWordPlacement(input, w);
    assert multiset(P)[w] > 0;
  }

  /** Case-sensitive resolution of a short word finds exactly the parsed words, under any base path and in any input order. */
  lemma ResolveShort(input: seq<string>, lineSeparator: string, archive: seq<Entry>, basePath: string, q: string)
    requires IsLineSeparator(lineSeparator) && NoBreakLines(input)
    requires PackedUnder(archive, basePath, Output(input, lineSeparator))
    requires |q| < KeyLength
    ensures ResolveSpec(archive, basePath, KeyLength, q, true) ==
            if q in ParsedWords(input) then Success(Some(q)) else Success(None)
  {
    ShortNamesEntry(input, lineSeparator, archive, basePath);
    RunShortWords(input);
    var short := Run(input).shortWords;
    assert q in short <==> q in ParsedWords(input);
  }

  /** A name of three characters that names no shard names no entry either (base path ""). */
  lemma NoOtherEntry(input: seq<string>, lineSeparator: string, archive: seq<Entry>, n: string)
    requires PackedUnder(archive, "", Output(input, lineSeparator))
    requires |n| == KeyLength && n !in Run(input).shards
    ensures GetEntry(archive, n).None?
  {
    if GetEntry(archive, n).Some? {
      EntryName(input, lineSeparator, archive, "", n);
      assert false;
    }
  }

  /** A parsed word that is not short resolves to itself. */
  lemma ResolveLongPresent(input: seq<string>, lineSeparator: string, archive: seq<Entry>, q: string)
    requires WellFormed(input)
    requires PackedUnder(archive, "", Output(input, lineSeparator))
    requires !IsShort(q) && q in ParsedWords(input)
    ensures ResolveSpec(archive, "", KeyLength, q, true) == Success(Some(q))
  {
    KeyOfWord(input, q);
    ShardEntry(input, lineSeparator, archive, Key(q));
    var ws := Run(input).shards[Key(q)];
    var i :| 0 <= i < |ws| && ws[i] == q;
    assert Matches(ws[i], q, true);
  }

  /** A word of three or more characters that the list does not hold resolves to null, whatever the input order. */
  lemma ResolveLongAbsent(input: seq<string>, lineSeparator: string, archive: seq<Entry>, q: string)
    requires NoBreakLines(input)
    requires PackedUnder(archive, "", Output(input, lineSeparator))
    requires !IsShort(q) && q !in ParsedWords(input)
    ensures ResolveSpec(archive, "", KeyLength, q, true) == Success(None)
  {
    var n := Lower(q[..KeyLength]);
    if n in Run(input).shards {
      ShardEntry(input, lineSeparator, archive, n);
    } else {
      NoOtherEntry(input, lineSeparator, archive, n);
    }
  }

  /**
   * Build, then resolve matching case (base path "", prefix length 3): on a sorted word list
   * whose words' first three characters are lower-case, a word resolves to itself exactly when
   * the list holds it, and to null otherwise.
   */
  lemma ResolveRoundTrip(input: seq<string>, lineSeparator: string, archive: seq<Entry>, q: string)
    requires IsLineSeparator(lineSeparator) && WellFormed(input)
    requires PackedUnder(archive, "", Output(input, lineSeparator))
    ensures ResolveSpec(archive, "", KeyLength, q, true) ==
            if q in ParsedWords(input) then Success(Some(q)) else Success(None)
  {
    if |q| < KeyLength {
      ResolveShort(input, lineSeparator, archive, "", q);
    } else if q in ParsedWords(input) {
      ResolveLongPresent(input, lineSeparator, archive, q);
    } else {
      ResolveLongAbsent(input, lineSeparator, archive, q);
    }
  }

  /** Lower-casing the query cannot separate it from a word of the same letters. */
  lemma LowerSamePrefix(q: string, w: string)
    requires Lower(q) == Lower(w) && KeyLength <= |q|
    ensures |w| == |q| && Lower(q[..KeyLength]) == Lower(w[..KeyLength])
  {
    LowerPrefix(q, KeyLength);
    LowerPrefix(w, KeyLength);
  }

  /**
   * Build, then resolve in any casing (base path "", prefix length 3): the query resolves to the
   * first word of the list, in arrival order, that equals it after lower-casing, and to null
   * when there is none; the word comes back in its stored casing.
   */
  lemma ResolveAnyCaseRoundTrip(input: seq<string>, lineSeparator: string, archive: seq<Entry>, q: string)
    requires IsLineSeparator(lineSeparator) && WellFormed(input)
    requires PackedUnder(archive, "", Output(input, lineSeparator))
    ensures ResolveSpec(archive, "", KeyLength, q, false) == Success(FirstMatch(ParsedWords(input), q, false))
    ensures var r := ResolveSpec(archive, "", KeyLength, q, false);
            && r.Success?
            && (r.value.Some? <==> exists w :: w in ParsedWords(input) && Lower(w) == Lower(q))
            && (r.value.Some? ==> r.value.value in ParsedWords(input) && Lower(r.value.value) == Lower(q))
  {
    var P := ParsedWords(input);
    if |q| < KeyLength {
      AnyCaseShort(input, lineSeparator, archive, q);
    } else if Lower(q[..KeyLength]) in Run(input).shards {
      AnyCaseLongShard(input, lineSeparator, archive, q);
    } else {
      AnyCaseLongNoShard(input, lineSeparator, archive, q);
    }
    var m := FirstMatch(P, q, false);
    if m.None? {
      forall w | w in P
        ensures Lower(w) != Lower(q)
      {
        var i :| 0 <= i < |P| && P[i] == w;
        assert !Matches(P[i], q, false);
      }
    }
  }

  /** Short queries in any casing: the short words are the parsed words the scan could match, for any input order. */
  lemma AnyCaseShort(input: seq<string>, lineSeparator: string, archive: seq<Entry>, q: string)
    requires IsLineSeparator(lineSeparator) && NoBreakLines(input)
    requires PackedUnder(archive, "", Output(input, lineSeparator))
    requires |q| < KeyLength
    ensures ResolveSpec(archive, "", KeyLength, q, false) == Success(FirstMatch(ParsedWords(input), q, false))
  {
    var P, short := ParsedWords(input), Run(input).shortWords;
    ShortNamesEntry(input, lineSeparator, archive, "");
    assert "" + ShortNamesName == ShortNamesName;
    assert ResolveSpec(archive, "", KeyLength, q, false) == Success(FirstMatch(short, q, false));
    RunShortWords(input);
    forall i | 0 <= i < |P| && Matches(P[i], q, false)
      ensures IsShort(P[i])
    {
      assert |Lower(P[i])| == |Lower(q)|;
    }
    FirstMatchFilter(IsShort, P, q, false);
  }

  /** A query whose lower-cased prefix names a shard: on a sorted list the shard holds every word the scan could match, in order. */
  lemma AnyCaseLongShard(input: seq<string>, lineSeparator: string, archive: seq<Entry>, q: string)
    requires WellFormed(input)
    requires PackedUnder(archive, "", Output(input, lineSeparator))
    requires KeyLength <= |q| && Lower(q[..KeyLength]) in Run(input).shards
    ensures ResolveSpec(archive, "", KeyLength, q, false) == Success(FirstMatch(ParsedWords(input), q, false))
  {
    var P, n := ParsedWords(input), Lower(q[..KeyLength]);
    ShardEntry(input, lineSeparator, archive, n);
    SortedKeysContiguous(P);
    RunContiguous(input);
    assert Run(input).shards[n] == Filter(KeyIs(n), P);
    forall i | 0 <= i < |P| && Matches(P[i], q, false)
      ensures KeyIs(n)(P[i])
    {
      LowerSamePrefix(q, P[i]);
      KeyOfWord(input, P[i]);
    }
    FirstMatchFilter(KeyIs(n), P, q, false);
  }

  /** A query whose lower-cased prefix names no shard: on a list with lower-case keys no word can match it. */
  lemma AnyCaseLongNoShard(input: seq<string>, lineSeparator: string, archive: seq<Entry>, q: string)
    requires WellFormed(input)
    requires PackedUnder(archive, "", Output(input, lineSeparator))
    requires KeyLength <= |q| && Lower(q[..KeyLength]) !in Run(input).shards
    ensures ResolveSpec(archive, "", KeyLength, q, false) == Success(None)
    ensures FirstMatch(ParsedWords(input), q, false) == None
  {
    var P, n := ParsedWords(input), Lower(q[..KeyLength]);
    NoOtherEntry(input, lineSeparator, archive, n);
    forall i | 0 <= i < |P|
      ensures !Matches(P[i], q, false)
    {
      if Matches(P[i], q, false) {
        LowerSamePrefix(q, P[i]);
        KeyOfWord(input, P[i]);
        assert false;
      }
    }
  }

  /** A query that equals no word of the list after lower-casing resolves to null, whatever the input order. */
  lemma AnyCaseLongAbsent(input: seq<string>, lineSeparator: string, archive: seq<Entry>, q: string)
    requires NoBreakLines(input)
    requires PackedUnder(archive, "", Output(input, lineSeparator))
    requires KeyLength <= |q| && forall w :: w in ParsedWords(input) ==> Lower(w) != Lower(q)
    ensures ResolveSpec(archive, "", KeyLength, q, false) == Success(None)
  {
    var n := Lower(q[..KeyLength]);
    if n in Run(input).shards {
      ShardEntry(input, lineSeparator, archive, n);
    } else {
      NoOtherEntry(input, lineSeparator, archive, n);
    }
  }

  /**
   * With a non-empty base path the shards are out of reach: `resolve` looks a word of three or
   * more characters up under its bare prefix, and no entry has a name that short.
   */
  lemma BasePathHidesShards(input: seq<string>, lineSeparator: string, archive: seq<Entry>, basePath: string,
                            q: string, matchCase: bool)
    requires basePath != []
    requires PackedUnder(archive, basePath, Output(input, lineSeparator))
    requires KeyLength <= |q|
    ensures ResolveSpec(archive, basePath, KeyLength, q, matchCase) == Success(None)
  {
    var n := Lower(q[..KeyLength]);
    if GetEntry(archive, n).Some? {
      EntryName(input, lineSeparator, archive, basePath, n);
      assert false;
    }
  }
}
