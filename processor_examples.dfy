/** Worked examples of the shard build on small word lists. */
module ProcessorExamples {
  import opened Common
  import opened JavaText
  import opened Processor

  /** The quoted lines of a word list in the source's format carry the words they quote. */
  lemma ExampleLines()
    ensures ParseWord("  \"ant\",") == Some("ant")
    ensures ParseWord("\"boat\": 1") == Some("boat")
    ensures ParseWord("[") == None
  {
    ExampleArrayItem();
    ExampleObjectKey();
    ExampleBracket();
  }

  /** An item of a JSON array of words. */
  lemma ExampleArrayItem()
    ensures ParseWord("  \"ant\",") == Some("ant")
  {
    assert "  \"ant\"," == "  " + ['"'] + "ant" + ['"'] + ",";
    ParseQuoted("  ", "ant", ",");
  }

  /** A key of a JSON object of words; what follows the closing quote is ignored. */
  lemma ExampleObjectKey()
    ensures ParseWord("\"boat\": 1") == Some("boat")
  {
    assert "\"boat\": 1" == "" + ['"'] + "boat" + ['"'] + ": 1";
    ParseQuoted("", "boat", ": 1");
  }

  /** A line without quotes carries no word. */
  lemma ExampleBracket()
    ensures ParseWord("[") == None
  {
    assert IndexOf("[", '"', 0) == -1;
  }

  /**
   * The example build: the words "ant", "ants", "boa", "boat" and "ox", in this order, give
   * the shards "ant" and "boa" and the short word "ox".
   */
  lemma ExampleBuild(lines: seq<string>)
    requires ParsedWords(lines) == ["ant", "ants", "boa", "boat", "ox"]
    ensures Run(lines).shards == map["ant" := ["ant", "ants"], "boa" := ["boa", "boat"]]
    ensures Run(lines).shortWords == ["ox"]
  {
    RunPlaced(lines);
    ExampleShards();
    PlacedSnoc(["ant", "ants", "boa", "boat"], "ox");
    assert ["ant", "ants", "boa", "boat"] + ["ox"] == ["ant", "ants", "boa", "boat", "ox"];
  }

  lemma ExampleShards()
    ensures Placed(["ant", "ants", "boa", "boat"]) ==
            Build(Some("boa"), map["ant" := ["ant", "ants"], "boa" := ["boa", "boat"]], [])
  {
    ExampleFirstShard();
    assert Key("boa") == Key("boat") == "boa";
    var b2 := Build(Some("ant"), map["ant" := ["ant", "ants"]], []);
    var b3 := b2.(prefix := Some("boa"), shards := b2.shards["boa" := ["boa"]]);
    PlacedSnoc(["ant", "ants"], "boa");
    assert ["ant", "ants"] + ["boa"] == ["ant", "ants", "boa"];
    PlaceOpens(b2, "boa");
    PlacedSnoc(["ant", "ants", "boa"], "boat");
    assert ["ant", "ants", "boa"] + ["boat"] == ["ant", "ants", "boa", "boat"];
    PlaceAppends(b3, "boat");
    assert ["boa"] + ["boat"] == ["boa", "boat"];
  }

  lemma ExampleFirstShard()
    ensures Placed(["ant", "ants"]) == Build(Some("ant"), map["ant" := ["ant", "ants"]], [])
  {
    var b0 := Build(None, map[], []);
    var b1 := Build(Some("ant"), map["ant" := ["ant"]], []);
    assert Key("ant") == Key("ants") == "ant";
    PlacedSnoc([], "ant");
    assert [] + ["ant"] == ["ant"];
    PlaceOpens(b0, "ant");
    PlacedSnoc(["ant"], "ants");
    assert ["ant"] + ["ants"] == ["ant", "ants"];
    PlaceAppends(b1, "ants");
    assert ["ant"] + ["ants"] == ["ant", "ants"];
  }

  /**
   * Out-of-order input: the words "abcd", "xyzw", "abce" reopen, and so truncate, the shard
   * "abc"; "abcd" is lost although it was parsed and carries that key.
   */
  lemma UnsortedInputTruncates(lines: seq<string>)
    requires ParsedWords(lines) == ["abcd", "xyzw", "abce"]
    ensures Filter(KeyIs("abc"), ParsedWords(lines)) == ["abcd", "abce"]
    ensures "abc" in Run(lines).shards && Run(lines).shards["abc"] == ["abce"]
  {
    RunPlaced(lines);
    UnsortedFiltered();
    UnsortedPlaced();
  }

  lemma UnsortedPlaced()
    ensures "abc" in Placed(["abcd", "xyzw", "abce"]).shards
    ensures Placed(["abcd", "xyzw", "abce"]).shards["abc"] == ["abce"]
  {
    var b2 := Build(Some("xyz"), map["abc" := ["abcd"], "xyz" := ["xyzw"]], []);
    UnsortedFirstTwo();
    assert Key("abce") == "abc";
    PlacedSnoc(["abcd", "xyzw"], "abce");
    assert ["abcd", "xyzw"] + ["abce"] == ["abcd", "xyzw", "abce"];
    PlaceOpens(b2, "abce");
  }

  lemma UnsortedFirstTwo()
    ensures Placed(["abcd", "xyzw"]) == Build(Some("xyz"), map["abc" := ["abcd"], "xyz" := ["xyzw"]], [])
  {
    var b0 := Build(None, map[], []);
    var b1 := Build(Some("abc"), map["abc" := ["abcd"]], []);
    assert Key("abcd") == "abc" && Key("xyzw") == "xyz";
    PlacedSnoc([], "abcd");
    assert [] + ["abcd"] == ["abcd"];
    PlaceOpens(b0, "abcd");
    PlacedSnoc(["abcd"], "xyzw");
    assert ["abcd"] + ["xyzw"] == ["abcd", "xyzw"];
    PlaceOpens(b1, "xyzw");
  }

  lemma UnsortedFiltered()
    ensures Filter(KeyIs("abc"), ["abcd", "xyzw", "abce"]) == ["abcd", "abce"]
  {
    UnsortedFilteredTwo();
    assert Key("abce") == "abc";
    FilterSnoc(KeyIs("abc"), ["abcd", "xyzw"], "abce");
    assert ["abcd", "xyzw"] + ["abce"] == ["abcd", "xyzw", "abce"];
  }

  lemma UnsortedFilteredTwo()
    ensures Filter(KeyIs("abc"), ["abcd", "xyzw"]) == ["abcd"]
  {
    assert Key("abcd") == "abc" && Key("xyzw") == "xyz";
    FilterSnoc(KeyIs("abc"), [], "abcd");
    assert [] + ["abcd"] == ["abcd"];
    FilterSnoc(KeyIs("abc"), ["abcd"], "xyzw");
    assert ["abcd"] + ["xyzw"] == ["abcd", "xyzw"];
  }
}
