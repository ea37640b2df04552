/** The rule-based stand-ins for the detector and the classifier in the
    Android plugin (TensorFlowLitePlugin.kt, the `detectObjects` and
    `classifyImage` branches of `onMethodCall`). Each looks only at the
    lower-cased last component of the image path and answers through the
    platform channel with a result or an error; here the answer is a value. */
module TfLitePlugin {
  import opened Wrappers
  import opened Text

  /** A `result.error(code, message, details)` answer. */
  datatype ChannelError = ChannelError(code: string, message: string)

  const MissingImagePath: ChannelError := ChannelError("INVALID_ARGUMENTS", "Missing image path")

  /** A `{"label": ..., "confidence": ...}` answer. */
  datatype Recognition = Recognition(labelName: string, confidence: real)

  const DocTerms: seq<string> := ["doc"]
  const PersonTerms: seq<string> := ["people", "person", "me", "suit"]
  const AnimalTerms: seq<string> := ["cat", "dog", "pet", "animal"]
  const NatureTerms: seq<string> := ["nature", "flower", "tree", "park", "road", "building", "mandir"]
  const FoodTerms: seq<string> := ["food", "chicken"]

  /** Some term of the list occurs in `s`. */
  predicate ContainsAny(s: string, terms: seq<string>) {
    exists k :: 0 <= k < |terms| && Contains(s, terms[k])
  }

  /** The term lists say the same as the `contains` chains of the source. */
  lemma TermChains(s: string)
    ensures ContainsAny(s, DocTerms) <==> Contains(s, "doc")
    ensures ContainsAny(s, PersonTerms) <==> Contains(s, "people") || Contains(s, "person") || Contains(s, "me") || Contains(s, "suit")
    ensures ContainsAny(s, AnimalTerms) <==> Contains(s, "cat") || Contains(s, "dog") || Contains(s, "pet") || Contains(s, "animal")
    ensures ContainsAny(s, NatureTerms) <==> Contains(s, "nature") || Contains(s, "flower") || Contains(s, "tree") || Contains(s, "park") || Contains(s, "road") || Contains(s, "building") || Contains(s, "mandir")
    ensures ContainsAny(s, FoodTerms) <==> Contains(s, "food") || Contains(s, "chicken")
  {
    DocChain(s);
    PersonChain(s);
    AnimalChain(s);
    NatureChain(s);
    FoodChain(s);
  }

  lemma DocChain(s: string)
    ensures ContainsAny(s, DocTerms) <==> Contains(s, "doc")
  {
    ContainsAnyList(s, DocTerms);
    assert AnyChain(s, DocTerms[0..]) == (Contains(s, "doc") || AnyChain(s, DocTerms[1..]));
    assert AnyChain(s, DocTerms[1..]) == false;
  }

  lemma PersonChain(s: string)
    ensures ContainsAny(s, PersonTerms) <==> Contains(s, "people") || Contains(s, "person") || Contains(s, "me") || Contains(s, "suit")
  {
    ContainsAnyList(s, PersonTerms);
    assert AnyChain(s, PersonTerms[0..]) == (Contains(s, "people") || AnyChain(s, PersonTerms[1..]));
    assert AnyChain(s, PersonTerms[1..]) == (Contains(s, "person") || AnyChain(s, PersonTerms[2..]));
    assert AnyChain(s, PersonTerms[2..]) == (Contains(s, "me") || AnyChain(s, PersonTerms[3..]));
    assert AnyChain(s, PersonTerms[3..]) == (Contains(s, "suit") || AnyChain(s, PersonTerms[4..]));
    assert AnyChain(s, PersonTerms[4..]) == false;
  }

  lemma AnimalChain(s: string)
    ensures ContainsAny(s, AnimalTerms) <==> Contains(s, "cat") || Contains(s, "dog") || Contains(s, "pet") || Contains(s, "animal")
  {
    ContainsAnyList(s, AnimalTerms);
    assert AnyChain(s, AnimalTerms[0..]) == (Contains(s, "cat") || AnyChain(s, AnimalTerms[1..]));
    assert AnyChain(s, AnimalTerms[1..]) == (Contains(s, "dog") || AnyChain(s, AnimalTerms[2..]));
    assert AnyChain(s, AnimalTerms[2..]) == (Contains(s, "pet") || AnyChain(s, AnimalTerms[3..]));
    assert AnyChain(s, AnimalTerms[3..]) == (Contains(s, "animal") || AnyChain(s, AnimalTerms[4..]));
    assert AnyChain(s, AnimalTerms[4..]) == false;
  }

  lemma NatureChain(s: string)
    ensures ContainsAny(s, NatureTerms) <==> Contains(s, "nature") || Contains(s, "flower") || Contains(s, "tree") || Contains(s, "park") || Contains(s, "road") || Contains(s, "building") || Contains(s, "mandir")
  {
    ContainsAnyList(s, NatureTerms);
    assert AnyChain(s, NatureTerms[0..]) == (Contains(s, "nature") || AnyChain(s, NatureTerms[1..]));
    assert AnyChain(s, NatureTerms[1..]) == (Contains(s, "flower") || AnyChain(s, NatureTerms[2..]));
    assert AnyChain(s, NatureTerms[2..]) == (Contains(s, "tree") || AnyChain(s, NatureTerms[3..]));
    assert AnyChain(s, NatureTerms[3..]) == (Contains(s, "park") || AnyChain(s, NatureTerms[4..]));
    assert AnyChain(s, NatureTerms[4..]) == (Contains(s, "road") || AnyChain(s, NatureTerms[5..]));
    assert AnyChain(s, NatureTerms[5..]) == (Contains(s, "building") || AnyChain(s, NatureTerms[6..]));
    assert AnyChain(s, NatureTerms[6..]) == (Contains(s, "mandir") || AnyChain(s, NatureTerms[7..]));
    assert AnyChain(s, NatureTerms[7..]) == false;
  }

  lemma FoodChain(s: string)
    ensures ContainsAny(s, FoodTerms) <==> Contains(s, "food") || Contains(s, "chicken")
  {
    ContainsAnyList(s, FoodTerms);
    assert AnyChain(s, FoodTerms[0..]) == (Contains(s, "food") || AnyChain(s, FoodTerms[1..]));
    assert AnyChain(s, FoodTerms[1..]) == (Contains(s, "chicken") || AnyChain(s, FoodTerms[2..]));
    assert AnyChain(s, FoodTerms[2..]) == false;
  }

  /** ContainsAny as a chain of `||`, term by term. */
  function AnyChain(s: string, terms: seq<string>): bool {
    |terms| > 0 && (Contains(s, terms[0]) || AnyChain(s, terms[1..]))
  }

  lemma {:induction false} ContainsAnyList(s: string, terms: seq<string>)
    ensures ContainsAny(s, terms) <==> AnyChain(s, terms)
    decreases |terms|
  {
    if |terms| > 0 {
      ContainsAnyList(s, terms[1..]);
      assert forall k :: 1 <= k < |terms| ==> terms[k] == terms[1..][k - 1];
      if ContainsAny(s, terms) && !Contains(s, terms[0]) {
        var k :| 0 <= k < |terms| && Contains(s, terms[k]);
        assert Contains(s, terms[1..][k - 1]);
      }
      if AnyChain(s, terms[1..]) {
        var k :| 0 <= k < |terms[1..]| && Contains(s, terms[1..][k]);
        assert Contains(s, terms[k + 1]);
      }
    }
  }

  // ---------------------------------------------------------------------
  // `File(imagePath).name`
  // ---------------------------------------------------------------------

  /** `java.io.File` drops trailing separators when it normalises a path. It
      also collapses repeated separators, which never changes the last
      component, so only the trailing ones are modelled. */
  function StripTrailingSlashes(path: string): (r: string)
    ensures |r| <= |path| && r == path[..|r|]
    ensures |r| > 0 ==> r[|r| - 1] != '/'
    ensures forall i :: |r| <= i < |path| ==> path[i] == '/'
  {
    if |path| > 0 && path[|path| - 1] == '/' then StripTrailingSlashes(path[..|path| - 1]) else path
  }

  /** What follows the last separator. */
  function AfterLastSlash(path: string): (r: string)
    ensures '/' !in r
    ensures |r| <= |path| && r == path[|path| - |r|..]
    ensures |r| < |path| ==> path[|path| - |r| - 1] == '/'
  {
    if |path| == 0 || path[|path| - 1] == '/' then []
    else
      var r := AfterLastSlash(path[..|path| - 1]) + [path[|path| - 1]];
      assert path == path[..|path| - 1] + [path[|path| - 1]];
      r
  }

  /** `File(path).name`: the last component of the normalised path. */
  function FileName(path: string): (r: string)
    ensures '/' !in r
  {
    AfterLastSlash(StripTrailingSlashes(path))
  }

  /** `File(imagePath).name.toLowerCase(Locale.ROOT)`: a lower-case name
      without separators, one character for each of the file name's. */
  function MatchName(imagePath: string): (r: string)
    ensures '/' !in r && IsLowerCase(r)
    ensures |r| == |FileName(imagePath)|
    ensures forall i :: 0 <= i < |r| ==> r[i] == LowerChar(FileName(imagePath)[i])
  {
    var name := FileName(imagePath);
    Lower(name)
  }

  // ---------------------------------------------------------------------
  // The two channel methods
  // ---------------------------------------------------------------------

  /** The rule of `detectObjects` on the lower-cased file name: at most one
      observation, "book" when the name holds "doc" (checked first), "person"
      when it holds a person term, none otherwise. */
  function DetectByName(filename: string): (r: seq<Recognition>)
    ensures |r| <= 1
    ensures ContainsAny(filename, DocTerms) ==> r == [Recognition("book", 0.95)]
    ensures !ContainsAny(filename, DocTerms) && ContainsAny(filename, PersonTerms) ==>
      r == [Recognition("person", 0.95)]
    ensures !ContainsAny(filename, DocTerms) && !ContainsAny(filename, PersonTerms) ==> r == []
  {
    TermChains(filename);
    if Contains(filename, "doc") then
      [Recognition("book", 0.95)]
    else if Contains(filename, "people") || Contains(filename, "person") ||
            Contains(filename, "me") || Contains(filename, "suit") then
      [Recognition("person", 0.95)]
    else
      []
  }

  /** `detectObjects`: a missing path is answered with the INVALID_ARGUMENTS
      error; any other path with the rule's answer for its lower-cased file
      name. */
  function DetectObjects(imagePath: Option<string>): (r: Result<seq<Recognition>, ChannelError>)
    ensures r.Failure? <==> imagePath.None?
    ensures r.Failure? ==> r.error == MissingImagePath
    ensures imagePath.Some? ==> r == Success(DetectByName(MatchName(imagePath.value)))
  {
    match imagePath
    case None => Failure(MissingImagePath)
    case Some(path) => Success(DetectByName(MatchName(path)))
  }

  /** The rule of `classifyImage` on the lower-cased file name: animal terms
      are checked first, then nature terms, then food terms, and anything
      else is "class_others", the only answer given with confidence 0.5. */
  function ClassifyByName(filename: string): (r: Recognition)
    ensures r.confidence == 0.5 <==> r.labelName == "class_others"
    ensures ContainsAny(filename, AnimalTerms) ==> r == Recognition("class_animal", 0.9)
    ensures !ContainsAny(filename, AnimalTerms) && ContainsAny(filename, NatureTerms) ==>
      r == Recognition("class_nature", 0.9)
    ensures !ContainsAny(filename, AnimalTerms) && !ContainsAny(filename, NatureTerms) &&
            ContainsAny(filename, FoodTerms) ==>
      r == Recognition("class_food", 0.9)
    ensures !ContainsAny(filename, AnimalTerms) && !ContainsAny(filename, NatureTerms) &&
            !ContainsAny(filename, FoodTerms) ==>
      r == Recognition("class_others", 0.5)
  {
    TermChains(filename);
    if Contains(filename, "cat") || Contains(filename, "dog") ||
       Contains(filename, "pet") || Contains(filename, "animal") then
      Recognition("class_animal", 0.9)
    else if Contains(filename, "nature") || Contains(filename, "flower") ||
            Contains(filename, "tree") || Contains(filename, "park") ||
            Contains(filename, "road") || Contains(filename, "building") ||
            Contains(filename, "mandir") then
      Recognition("class_nature", 0.9)
    else if Contains(filename, "food") || Contains(filename, "chicken") then
      Recognition("class_food", 0.9)
    else
      Recognition("class_others", 0.5)
  }

  /** `classifyImage`: a missing path is answered with the INVALID_ARGUMENTS
      error; any other path with the rule's answer for its lower-cased file
      name. */
  function ClassifyImage(imagePath: Option<string>): (r: Result<Recognition, ChannelError>)
    ensures r.Failure? <==> imagePath.None?
    ensures r.Failure? ==> r.error == MissingImagePath
    ensures imagePath.Some? ==> r == Success(ClassifyByName(MatchName(imagePath.value)))
  {
    match imagePath
    case None => Failure(MissingImagePath)
    case Some(path) => Success(ClassifyByName(MatchName(path)))
  }

  // ---------------------------------------------------------------------
  // Only the file name matters, and not its case
  // ---------------------------------------------------------------------

  lemma {:induction false} AfterLastSlashOfName(name: string)
    requires '/' !in name
    ensures AfterLastSlash(name) == name
    decreases |name|
  {
    if |name| > 0 {
      AfterLastSlashOfName(name[..|name| - 1]);
      assert name == name[..|name| - 1] + [name[|name| - 1]];
    }
  }

  /** A name without separators is its own file name. */
  lemma FileNameOfName(name: string)
    requires '/' !in name
    ensures FileName(name) == name
  {
    assert |name| > 0 ==> name[|name| - 1] in name;
    AfterLastSlashOfName(name);
  }

  /** The last component of `dir/name` is `name`. */
  lemma {:induction false} FileNameInFolder(dir: string, name: string)
    requires |name| > 0 && '/' !in name
    ensures FileName(dir + "/" + name) == name
    decreases |name|
  {
    var p := dir + "/" + name;
    assert p[|p| - 1] == name[|name| - 1] && name[|name| - 1] in name;
    assert StripTrailingSlashes(p) == p;
    AfterLastSlashInFolder(dir, name);
  }

  lemma {:induction false} AfterLastSlashInFolder(dir: string, name: string)
    requires '/' !in name
    ensures AfterLastSlash(dir + "/" + name) == name
    decreases |name|
  {
    var p := dir + "/" + name;
    if |name| == 0 {
      assert p[|p| - 1] == '/';
    } else {
      var init := name[..|name| - 1];
      assert p[..|p| - 1] == dir + "/" + init;
      assert name[|name| - 1] in name;
      AfterLastSlashInFolder(dir, init);
      assert name == init + [name[|name| - 1]];
    }
  }

  /** Both answers depend on the last path component only. */
  lemma AnswersUseFileNameOnly(path: string)
    ensures DetectObjects(Some(path)) == DetectObjects(Some(FileName(path)))
    ensures ClassifyImage(Some(path)) == ClassifyImage(Some(FileName(path)))
  {
    MatchNameOfFileName(path);
  }

  lemma MatchNameOfFileName(path: string)
    ensures MatchName(FileName(path)) == MatchName(path)
  {
    FileNameOfName(FileName(path));
  }

  /** Moving an image to another folder does not change either answer. */
  lemma AnswersIgnoreFolder(dir: string, name: string)
    requires |name| > 0 && '/' !in name
    ensures DetectObjects(Some(dir + "/" + name)) == DetectObjects(Some(name))
    ensures ClassifyImage(Some(dir + "/" + name)) == ClassifyImage(Some(name))
  {
    MatchNameInFolder(dir, name);
  }

  lemma MatchNameInFolder(dir: string, name: string)
    requires |name| > 0 && '/' !in name
    ensures MatchName(dir + "/" + name) == MatchName(name)
  {
    FileNameInFolder(dir, name);
    FileNameOfName(name);
  }

  lemma {:induction false} StripTrailingSlashesLower(path: string)
    ensures StripTrailingSlashes(Lower(path)) == Lower(StripTrailingSlashes(path))
    decreases |path|
  {
    if |path| > 0 {
      var init, last := path[..|path| - 1], path[|path| - 1];
      var lp := Lower(path);
      assert lp[|lp| - 1] == LowerChar(last);
      LowerSlice(path, 0, |path| - 1);
      assert lp[..|lp| - 1] == Lower(init);
      if last == '/' {
        assert StripTrailingSlashes(lp) == StripTrailingSlashes(Lower(init));
        StripTrailingSlashesLower(init);
      } else {
        assert LowerChar(last) != '/';
        assert StripTrailingSlashes(lp) == lp;
      }
    }
  }

  lemma {:induction false} AfterLastSlashLower(path: string)
    ensures AfterLastSlash(Lower(path)) == Lower(AfterLastSlash(path))
    decreases |path|
  {
    if |path| > 0 {
      var init, last := path[..|path| - 1], path[|path| - 1];
      var lp := Lower(path);
      assert lp[|lp| - 1] == LowerChar(last);
      LowerSlice(path, 0, |path| - 1);
      assert lp[..|lp| - 1] == Lower(init);
      if last != '/' {
        assert LowerChar(last) != '/';
        assert AfterLastSlash(lp) == AfterLastSlash(Lower(init)) + [LowerChar(last)];
        assert AfterLastSlash(path) == AfterLastSlash(init) + [last];
        AfterLastSlashLower(init);
        LowerAppend(AfterLastSlash(init), [last]);
        assert Lower([last]) == [LowerChar(last)];
      } else {
        assert AfterLastSlash(lp) == [];
      }
    }
  }

  /** The lower-cased file name does not see the case of the path. */
  lemma MatchNameLower(path: string)
    ensures MatchName(Lower(path)) == MatchName(path)
  {
    StripTrailingSlashesLower(path);
    AfterLastSlashLower(StripTrailingSlashes(path));
    assert FileName(Lower(path)) == Lower(FileName(path));
    LowerIdempotent(FileName(path));
  }

  /** Upper- and lower-case spellings of a path get the same answers. */
  lemma AnswersIgnoreCase(path: string)
    ensures DetectObjects(Some(Lower(path))) == DetectObjects(Some(path))
    ensures ClassifyImage(Some(Lower(path))) == ClassifyImage(Some(path))
  {
    MatchNameLower(path);
  }
}
