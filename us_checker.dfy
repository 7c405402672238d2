/** The USPTO trademark search around the HTTP call: the class filter of the
    query payload, and the wordmarks extracted from the returned hits. */
module UsChecker {
  import opened Wrappers

  // ------------------------------------------------------------ the payload

  /** `nice_classes`: one class string or a list of them. */
  datatype ClassArg = OneClass(niceClass: string) | ClassList(niceClasses: seq<string>)

  /** `if isinstance(nice_classes, str): nice_classes = [nice_classes]` */
  function NormaliseClasses(arg: ClassArg): (r: seq<string>)
    ensures arg.OneClass? ==> r == [arg.niceClass]
    ensures arg.ClassList? ==> r == arg.niceClasses
  {
    match arg
    case OneClass(c) => [c]
    case ClassList(cs) => cs
  }

  /** `[classMap[c] for c in classes if c in classMap]`: the codes of the known
      classes, in the given order. */
  function FormattedClasses(classes: seq<string>, classMap: map<string, string>): (r: seq<string>)
    ensures |r| <= |classes|
    ensures forall x :: x in r ==> exists c :: c in classes && c in classMap && classMap[c] == x
    ensures forall c :: c in classes && c in classMap ==> classMap[c] in r
    decreases |classes|
  {
    if classes == [] then []
    else
      var init := FormattedClasses(classes[..|classes| - 1], classMap);
      var c := classes[|classes| - 1];
      assert forall d :: d in classes <==> d in classes[..|classes| - 1] || d == c;
      init + (if c in classMap then [classMap[c]] else [])
  }

  /** The filter keeps order: formatting a concatenation concatenates the results. */
  lemma {:induction false} FormattedClassesAppend(a: seq<string>, b: seq<string>, classMap: map<string, string>)
    ensures FormattedClasses(a + b, classMap) == FormattedClasses(a, classMap) + FormattedClasses(b, classMap)
    decreases |b|
  {
    if b == [] {
      assert a + b == a;
    } else {
      var b' := b[..|b| - 1];
      assert (a + b)[..|a + b| - 1] == a + b';
      assert (a + b)[|a + b| - 1] == b[|b| - 1];
      FormattedClassesAppend(a, b', classMap);
    }
  }

  /** One class is kept, mapped, exactly when the configuration knows it. */
  lemma FormattedOneClass(c: string, classMap: map<string, string>)
    ensures FormattedClasses([c], classMap) == if c in classMap then [classMap[c]] else []
  {
    assert [c][..0] == [];
  }

  /** The fields of the request body the model keeps: the searched name, the
      `IC` terms filter, the page window and the requested fields. */
  datatype QueryPayload = QueryPayload(
    query: string,
    icFilter: seq<string>,
    size: nat,
    from: nat,
    trackTotalHits: bool,
    sourceFields: seq<string>)

  const PageSize: nat := 200

  /** `_build_query_payload` */
  function BuildQueryPayload(query: string, classes: seq<string>, classMap: map<string, string>): (p: QueryPayload)
    ensures p.query == query && p.icFilter == FormattedClasses(classes, classMap)
    ensures p.size == PageSize && p.from == 0 && p.trackTotalHits && p.sourceFields == ["wordmark"]
  {
    QueryPayload(query, FormattedClasses(classes, classMap), PageSize, 0, true, ["wordmark"])
  }

  // ------------------------------------------------------------ the hits

  /** A `wordmark` value: a string or JSON `null`. */
  datatype Wordmark = Text(text: string) | Null

  /** `bool(value)`: a non-empty string. */
  predicate Truthy(w: Wordmark) {
    w.Text? && w.text != []
  }

  /** A `source`/`_source` entry of a hit: absent, or an object that has a
      `wordmark` key (`Some`) or lacks it (`None`). */
  datatype Doc = NoDoc | Doc(wordmark: Option<Wordmark>)

  predicate HasWordmark(d: Doc) {
    d.Doc? && d.wordmark.Some?
  }

  datatype Hit = Hit(source: Doc, underscoreSource: Doc)

  /** The document a hit's wordmark is read from: `source` when it has a
      `wordmark` key, else `_source` when that has one. */
  function ChosenDoc(h: Hit): (d: Option<Doc>)
    ensures d.Some? ==> HasWordmark(d.value)
    ensures HasWordmark(h.source) ==> d == Some(h.source)
    ensures !HasWordmark(h.source) && HasWordmark(h.underscoreSource) ==> d == Some(h.underscoreSource)
    ensures !HasWordmark(h.source) && !HasWordmark(h.underscoreSource) ==> d == None
  {
    if HasWordmark(h.source) then Some(h.source)
    else if HasWordmark(h.underscoreSource) then Some(h.underscoreSource)
    else None
  }

  /** The name a hit contributes, if any: a falsy wordmark in the chosen
      document contributes nothing, even when the other document has one. */
  function HitName(h: Hit): Option<string> {
    match ChosenDoc(h)
    case Some(d) => if Truthy(d.wordmark.value) then Some(d.wordmark.value.text) else None
    case None => None
  }

  lemma FalsySourceDoesNotFallBack(h: Hit)
    requires HasWordmark(h.source) && !Truthy(h.source.wordmark.value)
    ensures HitName(h) == None
  {
  }

  /** The extracted names, in hit order. */
  function Wordmarks(hits: seq<Hit>): (r: seq<string>)
    ensures |r| <= |hits|
    ensures forall b :: b in r ==> b != []
    decreases |hits|
  {
    if hits == [] then []
    else
      var n := HitName(hits[|hits| - 1]);
      Wordmarks(hits[..|hits| - 1]) + (if n.Some? then [n.value] else [])
  }

  /** A name is extracted exactly when some hit contributes it. */
  lemma {:induction false} WordmarksMembers(hits: seq<Hit>, b: string)
    ensures b in Wordmarks(hits) <==> exists i :: 0 <= i < |hits| && HitName(hits[i]) == Some(b)
    decreases |hits|
  {
    if hits != [] {
      var init := hits[..|hits| - 1];
      WordmarksMembers(init, b);
      if exists i :: 0 <= i < |hits| && HitName(hits[i]) == Some(b) {
        var i :| 0 <= i < |hits| && HitName(hits[i]) == Some(b);
        if i < |init| { assert init[i] == hits[i]; }
      }
      if exists i :: 0 <= i < |init| && HitName(init[i]) == Some(b) {
        var i :| 0 <= i < |init| && HitName(init[i]) == Some(b);
        assert hits[i] == init[i];
      }
    }
  }

  /** Extraction keeps hit order: it distributes over concatenation. */
  lemma {:induction false} WordmarksAppend(a: seq<Hit>, b: seq<Hit>)
    ensures Wordmarks(a + b) == Wordmarks(a) + Wordmarks(b)
    decreases |b|
  {
    if b == [] {
      assert a + b == a;
    } else {
      var b' := b[..|b| - 1];
      assert (a + b)[..|a + b| - 1] == a + b';
      assert (a + b)[|a + b| - 1] == b[|b| - 1];
      WordmarksAppend(a, b');
    }
  }

  /** The loop over `hits_list`. */
  method ExtractWordmarks(hits: seq<Hit>) returns (brandNames: seq<string>)
    ensures brandNames == Wordmarks(hits)
  {
    brandNames := [];
    for i := 0 to |hits|
      invariant brandNames == Wordmarks(hits[..i])
    {
      assert hits[..i + 1][..i] == hits[..i];
      var hit := hits[i];
      if hit.source.Doc? && hit.source.wordmark.Some? {
        var w := hit.source.wordmark.value;
        if w.Text? && w.text != [] {
          brandNames := brandNames + [w.text];
        }
      } else if hit.underscoreSource.Doc? && hit.underscoreSource.wordmark.Some? {
        var w := hit.underscoreSource.wordmark.value;
        if w.Text? && w.text != [] {
          brandNames := brandNames + [w.text];
        }
      }
    }
    assert hits[..|hits|] == hits;
  }

  // ------------------------------------------------------------ the search

  /** The parts of the JSON reply read: `hits` and within it `hits`, each
      possibly missing (read with a default). */
  datatype HitsBlock = HitsBlock(hits: Option<seq<Hit>>)
  datatype Reply = Reply(hits: Option<HitsBlock>)

  function HitList(reply: Reply): seq<Hit> {
    match reply.hits
    case None => []
    case Some(block) => block.hits.GetOr([])
  }

  /** What the POST does: a decoded reply, a `RequestException`, or another
      exception while reading the reply. */
  datatype Response = Replied(reply: Reply) | RequestFailed(message: string) | ProcessingFailed(message: string)

  /** The returned dict: `success` with `data` a non-empty list or
      `"NO_RESULTS"`, or a failure with `error`. */
  datatype UsResult = Found(data: seq<string>) | NoResults | Failed(error: string)

  /** `search_trademark`, given what the request produced. */
  function Outcome(response: Response): (r: UsResult)
    ensures r.Found? ==> r.data != [] && response.Replied? && r.data == Wordmarks(HitList(response.reply))
    ensures r.NoResults? <==> response.Replied? && Wordmarks(HitList(response.reply)) == []
    ensures r.Failed? <==> !response.Replied?
    ensures response.RequestFailed? ==> r == Failed("查询美国商标时发生错误: " + response.message)
    ensures response.ProcessingFailed? ==> r == Failed("处理查询结果时发生错误: " + response.message)
  {
    match response
    case Replied(reply) =>
      var names := Wordmarks(HitList(reply));
      if names != [] then Found(names) else NoResults
    case RequestFailed(m) => Failed("查询美国商标时发生错误: " + m)
    case ProcessingFailed(m) => Failed("处理查询结果时发生错误: " + m)
  }

  /** `search_trademark(query_name, nice_classes)`: the payload it posts and
      the result it returns for the response it gets. */
  method SearchTrademark(query: string, classes: ClassArg, classMap: map<string, string>, response: Response)
    returns (payload: QueryPayload, result: UsResult)
    ensures payload == BuildQueryPayload(query, NormaliseClasses(classes), classMap)
    ensures result == Outcome(response)
  {
    var niceClasses := NormaliseClasses(classes);
    payload := BuildQueryPayload(query, niceClasses, classMap);
    match response
    case RequestFailed(m) =>
      result := Failed("查询美国商标时发生错误: " + m);
    case ProcessingFailed(m) =>
      result := Failed("处理查询结果时发生错误: " + m);
    case Replied(reply) =>
      var brandNames := ExtractWordmarks(HitList(reply));
      if brandNames != [] {
        result := Found(brandNames);
      } else {
        result := NoResults;
      }
  }
}
