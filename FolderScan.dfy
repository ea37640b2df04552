/** `process_folder` of categorize.py: the checkpointed, incremental batch.
    The categorised index (category -> image paths) and the checkpoint
    watermark (a modification time) are read at the start, every image newer
    than the watermark is categorised and appended to one bucket, and the
    index and the advanced watermark are handed back to be persisted.
    File reads and writes, `os.listdir` and `getmtime` are replaced by values:
    the stored index and the checkpoint text are inputs, the folder listing is
    a sequence of (name, mtime) entries, and what would be written is returned. */
module FolderScan {
  import opened Wrappers
  import opened Text
  import opened Categorize

  /** The categorised index: category -> image paths, in append order. */
  type Index = map<string, seq<string>>

  /** One directory entry with its modification time. */
  datatype FolderEntry = FolderEntry(name: string, mtime: real)

  /** What the two models say about one image: the detector's observations in
      their output order and the classifier's decoded top-1 label. */
  datatype Inference = Inference(detections: seq<Detection>, classifierLabel: string)

  /** The run's parameters. `mapping` is the category table as read from its
      file, before the load-time lower-casing; `infer` stands for the detector
      and the classifier applied to the image at a path. */
  datatype Config = Config(folder: string, threshold: real, mapping: Mapping, infer: string -> Inference)

  /** One processed image and the bucket it went to (the "Processed:" line). */
  datatype Assignment = Assignment(path: string, category: string)

  /** The loop's state: the index, `new_last_timestamp`, and the images
      processed so far. */
  datatype BatchState = BatchState(index: Index, watermark: real, processed: seq<Assignment>)

  const SupportedFormats: seq<string> := [".jpg", ".jpeg", ".png", ".bmp", ".gif"]
  const SeedCategories: seq<string> := [Docs, People, "Animal", "Nature", "Food", Others]

  // ---------------------------------------------------------------------
  // The stored index
  // ---------------------------------------------------------------------

  /** The index a first run starts from: the six buckets, all empty. */
  function FreshIndex(): (r: Index)
    ensures r.Keys == {"Docs", "People", "Animal", "Nature", "Food", "Others"}
    ensures forall c :: c in r ==> r[c] == []
  {
    map c | c in SeedCategories :: []
  }

  /** The stored index when the file exists, the fresh one otherwise. */
  function LoadIndex(stored: Option<Index>): (r: Index)
    ensures stored.Some? ==> r == stored.value
    ensures stored.None? ==> r == FreshIndex()
  {
    match stored
    case Some(index) => index
    case None => FreshIndex()
  }

  // ---------------------------------------------------------------------
  // The checkpoint text
  // ---------------------------------------------------------------------

  /** The ASCII characters `str.strip()` removes. */
  predicate IsSpace(c: char) {
    c == ' ' || c == '\t' || c == '\n' || c == '\r' || c == '\U{B}' || c == '\U{C}' ||
    ('\U{1C}' <= c <= '\U{1F}')
  }

  function StripLeading(s: string): (r: string)
    ensures |r| <= |s| && r == s[|s| - |r|..]
    ensures |r| > 0 ==> !IsSpace(r[0])
    ensures forall i :: 0 <= i < |s| - |r| ==> IsSpace(s[i])
  {
    if |s| > 0 && IsSpace(s[0]) then StripLeading(s[1..]) else s
  }

  function StripTrailing(s: string): (r: string)
    ensures |r| <= |s| && r == s[..|r|]
    ensures |r| > 0 ==> !IsSpace(r[|r| - 1])
    ensures forall i :: |r| <= i < |s| ==> IsSpace(s[i])
  {
    if |s| > 0 && IsSpace(s[|s| - 1]) then StripTrailing(s[..|s| - 1]) else s
  }

  /** `str.strip()`: the text without leading and trailing whitespace. The
      result is the slice of `s` between a whitespace prefix and a whitespace
      suffix, and neither of its ends is whitespace. */
  function Strip(s: string): (r: string)
    ensures |r| > 0 ==> !IsSpace(r[0]) && !IsSpace(r[|r| - 1])
    ensures exists a :: StrippedAt(s, r, a)
  {
    var t := StripLeading(s);
    var r := StripTrailing(t);
    assert StrippedAt(s, r, |s| - |t|);
    r
  }

  /** `r` is `s[a..a + |r|]`, and everything of `s` around it is whitespace. */
  predicate StrippedAt(s: string, r: string, a: int) {
    0 <= a && a + |r| <= |s| && r == s[a..a + |r|] &&
    (forall i :: 0 <= i < a ==> IsSpace(s[i])) &&
    (forall i :: a + |r| <= i < |s| ==> IsSpace(s[i]))
  }

  predicate IsDigit(c: char) {
    '0' <= c <= '9'
  }

  predicate AllDigits(s: string) {
    forall i :: 0 <= i < |s| ==> IsDigit(s[i])
  }

  /** The number of leading decimal digits of `s`. */
  function LeadingDigits(s: string): (n: nat)
    ensures n <= |s| && AllDigits(s[..n])
    ensures n < |s| ==> !IsDigit(s[n])
  {
    if |s| > 0 && IsDigit(s[0]) then
      var n := LeadingDigits(s[1..]);
      assert s[..n + 1] == [s[0]] + s[1..][..n];
      n + 1
    else 0
  }

  /** The value of a string of decimal digits. */
  function DigitsValue(s: string): nat
    requires AllDigits(s)
  {
    if |s| == 0 then 0 else DigitsValue(s[..|s| - 1]) * 10 + (s[|s| - 1] as int - '0' as int)
  }

  /** The value of the digits after a decimal point: "25" is 0.25. */
  function FractionValue(s: string): (r: real)
    requires AllDigits(s)
    ensures 0.0 <= r <= 1.0
  {
    if |s| == 0 then 0.0 else ((s[0] as int - '0' as int) as real + FractionValue(s[1..])) / 10.0
  }

  /** An unsigned decimal literal: digits, optionally a point and more digits,
      with at least one digit in all ("12", "12.", ".5", "12.5"). The lemmas
      `ParseWhole`, `ParseDecimal` and `ParsedShape` below give its value on
      each shape and show that no other text parses. */
  function ParseUnsigned(s: string): (r: Option<real>)
    ensures r.Some? ==> r.value >= 0.0 && |s| > 0
    ensures r.Some? ==> forall i :: 0 <= i < |s| ==> IsDigit(s[i]) || s[i] == '.'
  {
    var n := LeadingDigits(s);
    var whole := s[..n];
    if n == |s| then
      if n == 0 then None else Some(DigitsValue(whole) as real)
    else if s[n] != '.' then None
    else
      var frac := s[n + 1..];
      if !AllDigits(frac) || (n == 0 && |frac| == 0) then None
      else
        assert s == whole + ['.'] + frac;
        Some(DigitsValue(whole) as real + FractionValue(frac))
  }

  /** `s` is the digits `w`, a point, and the digits `f`. */
  predicate IsDecimal(s: string, w: string, f: string) {
    s == w + "." + f && AllDigits(w) && AllDigits(f)
  }

  /** `float(text.strip())` for text in decimal notation with an optional sign:
      what parses is the stripped text as an unsigned literal, or a sign
      followed by one, and a minus sign negates the value. */
  function ParseFloat(text: string): (r: Option<real>)
    ensures r.Some? ==>
      var t := Strip(text);
      ParseUnsigned(t) == r ||
      (|t| > 0 && t[0] == '+' && ParseUnsigned(t[1..]) == r) ||
      (|t| > 0 && t[0] == '-' && ParseUnsigned(t[1..]) == Some(-r.value))
  {
    var t := Strip(text);
    if |t| > 0 && (t[0] == '+' || t[0] == '-') then
      match ParseUnsigned(t[1..])
      case None => None
      case Some(v) => Some(if t[0] == '-' then -v else v)
    else
      ParseUnsigned(t)
  }

  /** The starting watermark: 0 when the checkpoint file is missing or its
      content does not parse. */
  function LoadCheckpoint(checkpointFile: Option<string>): (r: real)
    ensures checkpointFile.None? ==> r == 0.0
    ensures checkpointFile.Some? && ParseFloat(checkpointFile.value).None? ==> r == 0.0
    ensures checkpointFile.Some? && ParseFloat(checkpointFile.value).Some? ==> r == ParseFloat(checkpointFile.value).value
  {
    match checkpointFile
    case None => 0.0
    case Some(text) =>
      match ParseFloat(text)
      case Some(v) => v
      case None => 0.0
  }

  /** Checkpoint text holding any character that is neither whitespace nor
      part of a decimal literal gives the starting watermark 0. */
  lemma NonNumericCheckpointIsZero(text: string, i: nat)
    requires i < |text| && !IsSpace(text[i]) && !IsDigit(text[i]) && text[i] !in ".+-"
    ensures LoadCheckpoint(Some(text)) == 0.0
  {
    var j := StripKeeps(text, i);
    ForeignCharRejected(text, j);
  }

  /** A character that is not whitespace survives `Strip`. */
  lemma StripKeeps(s: string, i: nat) returns (j: nat)
    requires i < |s| && !IsSpace(s[i])
    ensures j < |Strip(s)| && Strip(s)[j] == s[i]
  {
    var r := Strip(s);
    var a :| StrippedAt(s, r, a);
    j := i - a;
  }

  lemma ForeignCharRejected(text: string, j: nat)
    requires j < |Strip(text)|
    requires !IsDigit(Strip(text)[j]) && Strip(text)[j] !in ".+-"
    ensures ParseFloat(text).None?
  {
    var t := Strip(text);
    if j > 0 && (t[0] == '+' || t[0] == '-') {
      assert t[1..][j - 1] == t[j];
    }
  }


  /** The decimal digits of `n`, as `str(n)` writes them. */
  function NatToString(n: nat): (r: string)
    ensures |r| > 0 && AllDigits(r) && DigitsValue(r) == n
    ensures r[0] == '0' ==> n == 0
    ensures |r| > 1 ==> r[0] != '0'
  {
    var d := ['0' + (n % 10) as char];
    if n < 10 then d
    else
      var r := NatToString(n / 10) + d;
      assert r[..|r| - 1] == NatToString(n / 10);
      r
  }

  /** `str(x)` for a float with the integral value `n` below 10^16: its digits
      followed by ".0". What it promises is the round trip of
      `CheckpointRoundTrip`. */
  function FloatRepr(n: nat): string {
    NatToString(n) + ".0"
  }

  /** A checkpoint written for a whole-second watermark reads back as that
      watermark. */
  lemma CheckpointRoundTrip(n: nat)
    requires n < 10000000000000000
    ensures LoadCheckpoint(Some(FloatRepr(n))) == n as real
  {
    var s, digits := FloatRepr(n), NatToString(n);
    assert s[0] == digits[0] && s[|s| - 1] == '0';
    StripUnspaced(s);
    assert ParseFloat(s) == ParseUnsigned(s) by {
      assert !(s[0] == '+' || s[0] == '-');
    }
    assert s == digits + "." + "0";
    assert FractionValue("0") == 0.0;
    ParseDecimal(digits, "0");
  }

  /** Text that neither starts nor ends with whitespace is left as it is. */
  lemma StripUnspaced(s: string)
    requires |s| > 0 && !IsSpace(s[0]) && !IsSpace(s[|s| - 1])
    ensures Strip(s) == s
  {
    assert StripLeading(s) == s;
  }

  /** A nonempty run of digits parses as its value. */
  lemma ParseWhole(w: string)
    requires |w| > 0 && AllDigits(w)
    ensures ParseUnsigned(w) == Some(DigitsValue(w) as real)
  {
    LeadingDigitsOfAll(w);
    assert w[..|w|] == w;
  }

  /** Digits, a point and digits, with at least one digit in all, parse as
      the whole part plus the fraction. */
  lemma ParseDecimal(w: string, f: string)
    requires AllDigits(w) && AllDigits(f) && |w| + |f| > 0
    ensures ParseUnsigned(w + "." + f) == Some(DigitsValue(w) as real + FractionValue(f))
  {
    var rest := "." + f;
    assert w + "." + f == w + rest && rest[1..] == f;
    DecimalSplit(w, rest);
    LeadingDigitsOfDecimal(w, rest);
    ParsePointed(w + rest, w, f);
  }

  lemma DecimalSplit(w: string, rest: string)
    requires |rest| > 0
    ensures (w + rest)[..|w|] == w && (w + rest)[|w|] == rest[0] && (w + rest)[|w| + 1..] == rest[1..]
  {
  }

  lemma ParsePointed(s: string, w: string, f: string)
    requires AllDigits(w) && AllDigits(f) && (|w| > 0 || |f| > 0)
    requires LeadingDigits(s) == |w| < |s| && s[..|w|] == w && s[|w|] == '.' && s[|w| + 1..] == f
    ensures ParseUnsigned(s) == Some(DigitsValue(w) as real + FractionValue(f))
  {
  }

  /** Only those two shapes parse, so with `ParseWhole` and `ParseDecimal`
      every parsed value is accounted for. */
  lemma ParsedShape(s: string)
    requires ParseUnsigned(s).Some?
    ensures (|s| > 0 && AllDigits(s)) || exists w, f :: IsDecimal(s, w, f) && |w| + |f| > 0
  {
    var n := LeadingDigits(s);
    if n == |s| {
      assert s[..n] == s;
    } else {
      var w, f := s[..n], s[n + 1..];
      assert s[n] == '.' && AllDigits(f) && |w| + |f| > 0;
      assert s == w + "." + f;
      assert IsDecimal(s, w, f);
    }
  }

  /** A leading sign: "+" keeps the value, "-" negates it. */
  lemma ParseSigned(u: string)
    requires ParseUnsigned(u).Some?
    ensures ParseFloat(u) == ParseUnsigned(u)
    ensures ParseFloat("+" + u) == ParseUnsigned(u)
    ensures ParseFloat("-" + u) == Some(-ParseUnsigned(u).value)
  {
    ParseUnsignedUnsigned(u);
    var plus, minus := "+" + u, "-" + u;
    assert plus[0] == '+' && plus[1..] == u;
    assert minus[0] == '-' && minus[1..] == u;
    ParseSign(plus, u);
    ParseSign(minus, u);
  }

  lemma ParseUnsignedUnsigned(u: string)
    requires ParseUnsigned(u).Some?
    ensures ParseFloat(u) == ParseUnsigned(u)
  {
    assert IsDigit(u[0]) || u[0] == '.';
    assert IsDigit(u[|u| - 1]) || u[|u| - 1] == '.';
    StripUnspaced(u);
  }

  /** Whitespace around the text does not matter: once stripped, an unsigned
      literal reads as its value, and "+" or "-" followed by one as its value
      or its negation. */
  lemma ParseStripped(text: string)
    ensures ParseUnsigned(Strip(text)).Some? ==> ParseFloat(text) == ParseUnsigned(Strip(text))
    ensures var t := Strip(text);
      |t| > 0 && t[0] == '+' && ParseUnsigned(t[1..]).Some? ==> ParseFloat(text) == ParseUnsigned(t[1..])
    ensures var t := Strip(text);
      |t| > 0 && t[0] == '-' && ParseUnsigned(t[1..]).Some? ==> ParseFloat(text) == Some(-ParseUnsigned(t[1..]).value)
  {
    var t := Strip(text);
    if ParseUnsigned(t).Some? {
      assert IsDigit(t[0]) || t[0] == '.';
    }
  }

  /** The checkpoint text " 12.5\n" reads as 12.5. */
  lemma PaddedCheckpoint()
    ensures LoadCheckpoint(Some(" 12.5\n")) == 12.5
  {
    StripPadded();
    ParseTwelveAndAHalf();
    ParseStripped(" 12.5\n");
  }

  lemma StripPadded()
    ensures Strip(" 12.5\n") == "12.5"
  {
    StripLeadingPadded();
    StripTrailingPadded();
  }

  lemma StripLeadingPadded()
    ensures StripLeading(" 12.5\n") == "12.5\n"
  {
    assert " 12.5\n" == [' '] + "12.5\n";
    StripOneLeadingSpace(' ', "12.5\n");
  }

  lemma StripOneLeadingSpace(c: char, s: string)
    requires IsSpace(c) && |s| > 0 && !IsSpace(s[0])
    ensures StripLeading([c] + s) == s
  {
    assert ([c] + s)[1..] == s;
  }

  lemma StripTrailingPadded()
    ensures StripTrailing("12.5\n") == "12.5"
  {
    var text := "12.5\n";
    assert text[..4] == "12.5";
    assert StripTrailing("12.5") == "12.5";
  }

  lemma ParseTwelveAndAHalf()
    ensures ParseUnsigned("12.5") == Some(12.5)
  {
    assert "12.5" == "12" + "." + "5";
    assert DigitsValue("12") == 12 by {
      assert "12"[..1] == "1";
    }
    assert FractionValue("5") == 0.5;
    ParseDecimal("12", "5");
  }

  lemma ParseSign(t: string, u: string)
    requires ParseUnsigned(u).Some? && |t| == |u| + 1 && t[0] in "+-" && t[1..] == u
    ensures ParseFloat(t) == Some(if t[0] == '-' then -ParseUnsigned(u).value else ParseUnsigned(u).value)
  {
    assert IsDigit(u[|u| - 1]) || u[|u| - 1] == '.';
    assert t[|t| - 1] == u[|u| - 1];
    StripUnspaced(t);
  }

  /** A run of digits is all leading digits. */
  lemma {:induction false} LeadingDigitsOfAll(w: string)
    requires AllDigits(w)
    ensures LeadingDigits(w) == |w|
    decreases |w|
  {
    if |w| > 0 {
      LeadingDigitsOfAll(w[1..]);
    }
  }

  lemma {:induction false} LeadingDigitsOfDecimal(digits: string, rest: string)
    requires AllDigits(digits) && |rest| > 0 && !IsDigit(rest[0])
    ensures LeadingDigits(digits + rest) == |digits|
    decreases |digits|
  {
    if |digits| > 0 {
      assert (digits + rest)[1..] == digits[1..] + rest;
      LeadingDigitsOfDecimal(digits[1..], rest);
    } else {
      assert (digits + rest)[0] == rest[0];
    }
  }

  // ---------------------------------------------------------------------
  // The folder listing
  // ---------------------------------------------------------------------

  /** `f.lower().endswith(supported_formats)` */
  predicate IsSupportedImage(name: string) {
    exists k :: 0 <= k < |SupportedFormats| && EndsWith(Lower(name), SupportedFormats[k])
  }

  function SupportedOnly(listing: seq<FolderEntry>): (r: seq<FolderEntry>)
    ensures forall e :: e in r <==> e in listing && IsSupportedImage(e.name)
    ensures forall e :: multiset(r)[e] == if IsSupportedImage(e.name) then multiset(listing)[e] else 0
  {
    if |listing| == 0 then []
    else
      assert listing == [listing[0]] + listing[1..];
      (if IsSupportedImage(listing[0].name) then [listing[0]] else []) + SupportedOnly(listing[1..])
  }

  /** Python's string order: lexicographic by code point. */
  predicate NameLe(a: string, b: string)
    decreases |a|
  {
    |a| == 0 || (|b| > 0 && (a[0] < b[0] || (a[0] == b[0] && NameLe(a[1..], b[1..]))))
  }

  lemma {:induction false} NameLeTotal(a: string, b: string)
    ensures NameLe(a, b) || NameLe(b, a)
    decreases |a|
  {
    if |a| > 0 && |b| > 0 && a[0] == b[0] {
      NameLeTotal(a[1..], b[1..]);
    }
  }

  predicate SortedByName(s: seq<FolderEntry>) {
    forall k :: 0 < k < |s| ==> NameLe(s[k - 1].name, s[k].name)
  }

  function InsertByName(e: FolderEntry, s: seq<FolderEntry>): (r: seq<FolderEntry>)
    requires SortedByName(s)
    ensures SortedByName(r)
    ensures multiset(r) == multiset(s) + multiset{e}
    ensures |r| == |s| + 1 && (r[0] == e || (|s| > 0 && r[0] == s[0]))
  {
    if |s| == 0 then [e]
    else if NameLe(e.name, s[0].name) then [e] + s
    else
      NameLeTotal(e.name, s[0].name);
      assert s == [s[0]] + s[1..];
      [s[0]] + InsertByName(e, s[1..])
  }

  /** `sorted(...)` by file name. */
  function SortByName(s: seq<FolderEntry>): (r: seq<FolderEntry>)
    ensures SortedByName(r)
    ensures multiset(r) == multiset(s)
  {
    if |s| == 0 then []
    else
      assert s == [s[0]] + s[1..];
      InsertByName(s[0], SortByName(s[1..]))
  }

  /** The images the run looks at: the supported names of the listing, each
      as often as it is listed, in name order. */
  function ImageFiles(listing: seq<FolderEntry>): (r: seq<FolderEntry>)
    ensures SortedByName(r)
    ensures forall e :: multiset(r)[e] == if IsSupportedImage(e.name) then multiset(listing)[e] else 0
  {
    SortByName(SupportedOnly(listing))
  }

  /** `os.path.join(folder, name)` */
  function JoinPath(folder: string, name: string): (r: string)
    ensures EndsWith(r, name)
    ensures |name| > 0 && name[0] != '/' ==> folder <= r
    ensures |name| > 0 && name[0] != '/' ==> r == folder + name || r == folder + "/" + name
    ensures |folder| > 0 && folder[|folder| - 1] != '/' && |name| > 0 && name[0] != '/' ==> r == folder + "/" + name
    ensures (|folder| == 0 || folder[|folder| - 1] == '/') && |name| > 0 && name[0] != '/' ==> r == folder + name
    ensures |name| > 0 && name[0] == '/' ==> r == name
  {
    if |name| > 0 && name[0] == '/' then name
    else if |folder| == 0 || folder[|folder| - 1] == '/' then folder + name
    else folder + "/" + name
  }

  // ---------------------------------------------------------------------
  // The batch
  // ---------------------------------------------------------------------

  /** `hybrid_pipeline(image_path, confidence_threshold)`, run against the
      table as it stands after the load-time lower-casing (the table
      NormalizeMapping produces). */
  function CategoryFor(cfg: Config, path: string): (r: string)
    ensures r == Others || IsCategory(r, cfg.mapping)
  {
    var table := Normalized(cfg.mapping);
    assert forall c :: IsCategory(c, table) ==> IsCategory(c, cfg.mapping);
    HybridPipeline(cfg.infer(path).detections, cfg.infer(path).classifierLabel, cfg.threshold, table)
  }

  /** A detection at or above the threshold whose label equals a "Docs"
      keyword of the file up to case, with no earlier detection ending the
      scan, sends the image to "Docs". */
  lemma DocsKeywordIgnoresCase(cfg: Config, path: string, i: nat, keyword: string)
    requires var dets := cfg.infer(path).detections;
             i < |dets| && dets[i].score >= cfg.threshold &&
             keyword in Keywords(cfg.mapping, Docs) && Lower(keyword) == Lower(dets[i].labelName) &&
             forall j :: 0 <= j < i ==> !ShortCircuits(dets[j], cfg.threshold, Normalized(cfg.mapping))
    ensures CategoryFor(cfg, path) == Docs
  {
    var dets, table := cfg.infer(path).detections, Normalized(cfg.mapping);
    var kws := Keywords(cfg.mapping, Docs);
    KeywordsNormalized(cfg.mapping, Docs);
    var k :| 0 <= k < |kws| && kws[k] == keyword;
    assert LowerAll(kws)[k] == Lower(dets[i].labelName);
    DocsDetectionWins(dets, cfg.infer(path).classifierLabel, cfg.threshold, table, i);
  }

  /** `image_path = os.path.join(folder, image_file)` and the pipeline's
      category for it: the path ends with the file's name, lies under the
      folder for a relative name, and its category is "Others" or a key of
      the table. */
  function AssignmentOf(cfg: Config, f: FolderEntry): (r: Assignment)
    ensures EndsWith(r.path, f.name)
    ensures |f.name| > 0 && f.name[0] != '/' ==> cfg.folder <= r.path
    ensures r.category == Others || IsCategory(r.category, cfg.mapping)
  {
    var path := JoinPath(cfg.folder, f.name);
    Assignment(path, CategoryFor(cfg, path))
  }

  /** Every category the pipeline can return is a bucket of the index, so the
      append never raises a KeyError. */
  predicate Covers(index: Index, mapping: Mapping) {
    Others in index && forall i :: 0 <= i < |mapping| ==> mapping[i].category in index
  }

  /** One iteration of the loop over the image files. */
  function Visit(st: BatchState, f: FolderEntry, last: real, cfg: Config): (r: BatchState)
    requires Covers(st.index, cfg.mapping)
    ensures r.index.Keys == st.index.Keys
  {
    if f.mtime <= last then st
    else
      var a := AssignmentOf(cfg, f);
      BatchState(st.index[a.category := st.index[a.category] + [a.path]],
                 if f.mtime > st.watermark then f.mtime else st.watermark,
                 st.processed + [a])
  }

  /** The loop over `files`, from state `st`, against the starting watermark `last`. */
  function Scan(st: BatchState, last: real, files: seq<FolderEntry>, cfg: Config): (r: BatchState)
    requires Covers(st.index, cfg.mapping)
    ensures r.index.Keys == st.index.Keys
    decreases |files|
  {
    if |files| == 0 then st
    else Visit(Scan(st, last, files[..|files| - 1], cfg), files[|files| - 1], last, cfg)
  }

  lemma ScanStep(st: BatchState, last: real, files: seq<FolderEntry>, i: nat, cfg: Config)
    requires Covers(st.index, cfg.mapping) && i < |files|
    ensures Scan(st, last, files[..i + 1], cfg) == Visit(Scan(st, last, files[..i], cfg), files[i], last, cfg)
  {
    assert files[..i + 1][..i] == files[..i];
  }

  /** `process_folder`: returns the index to save, the images processed in
      order, and the checkpoint to write (None: the file is left untouched). */
  method ProcessFolder(stored: Option<Index>, checkpointFile: Option<string>, listing: seq<FolderEntry>, cfg: Config)
    returns (saved: Index, processed: seq<Assignment>, checkpoint: Option<real>)
    requires Covers(LoadIndex(stored), cfg.mapping)
    ensures var last := LoadCheckpoint(checkpointFile);
            var st := Scan(BatchState(LoadIndex(stored), last, []), last, ImageFiles(listing), cfg);
            saved == st.index && processed == st.processed &&
            checkpoint == if st.watermark > last then Some(st.watermark) else None
  {
    var categorizedData: Index;
    if stored.Some? {
      categorizedData := stored.value;
    } else {
      categorizedData := map["Docs" := [], "People" := [], "Animal" := [], "Nature" := [], "Food" := [], "Others" := []];
      assert categorizedData == FreshIndex();
    }
    var lastTimestamp := LoadCheckpoint(checkpointFile);
    var imageFiles := ImageFiles(listing);
    ghost var start := BatchState(categorizedData, lastTimestamp, []);
    var newLastTimestamp := lastTimestamp;
    processed := [];
    for i := 0 to |imageFiles|
      invariant BatchState(categorizedData, newLastTimestamp, processed) == Scan(start, lastTimestamp, imageFiles[..i], cfg)
    {
      ScanStep(start, lastTimestamp, imageFiles, i, cfg);
      var imageFile := imageFiles[i];
      if imageFile.mtime <= lastTimestamp {
        continue;
      }
      ghost var before := BatchState(categorizedData, newLastTimestamp, processed);
      var imagePath := JoinPath(cfg.folder, imageFile.name);
      var category := CategoryFor(cfg, imagePath);
      categorizedData := categorizedData[category := categorizedData[category] + [imagePath]];
      processed := processed + [Assignment(imagePath, category)];
      if imageFile.mtime > newLastTimestamp {
        newLastTimestamp := imageFile.mtime;
      }
      assert BatchState(categorizedData, newLastTimestamp, processed) == Visit(before, imageFile, lastTimestamp, cfg);
    }
    assert imageFiles[..|imageFiles|] == imageFiles;
    saved := categorizedData;
    if newLastTimestamp > lastTimestamp {
      checkpoint := Some(newLastTimestamp);
    } else {
      checkpoint := None;
    }
  }

  // ---------------------------------------------------------------------
  // What a run does, stated without the loop
  // ---------------------------------------------------------------------

  /** The files newer than the watermark, in listing order: each newer file
      as often as it is listed, no other file at all. */
  function NewFiles(files: seq<FolderEntry>, last: real): (r: seq<FolderEntry>)
    ensures forall f :: multiset(r)[f] == if f.mtime > last then multiset(files)[f] else 0
    decreases |files|
  {
    if |files| == 0 then []
    else
      var f := files[|files| - 1];
      assert files == files[..|files| - 1] + [f];
      NewFiles(files[..|files| - 1], last) + (if f.mtime > last then [f] else [])
  }

  /** One assignment per newer file, in order. */
  function Assignments(files: seq<FolderEntry>, last: real, cfg: Config): (r: seq<Assignment>)
  {
    var newer := NewFiles(files, last);
    seq(|newer|, k requires 0 <= k < |newer| => AssignmentOf(cfg, newer[k]))
  }

  /** The paths of the assignments to `category`, in order. */
  function Bucket(log: seq<Assignment>, category: string): (r: seq<string>)
    ensures |r| <= |log|
  {
    if |log| == 0 then []
    else
      var a := log[|log| - 1];
      Bucket(log[..|log| - 1], category) + (if a.category == category then [a.path] else [])
  }

  /** A run appends to each bucket exactly the paths of the newer files
      categorised into it, in listing order, after what the bucket held;
      nothing is removed and the log lists each newer file once. */
  lemma {:induction false} ScanAppends(st: BatchState, last: real, files: seq<FolderEntry>, cfg: Config)
    requires Covers(st.index, cfg.mapping)
    ensures Scan(st, last, files, cfg).processed == st.processed + Assignments(files, last, cfg)
    ensures forall c :: c in st.index ==>
      Scan(st, last, files, cfg).index[c] == st.index[c] + Bucket(Assignments(files, last, cfg), c)
    decreases |files|
  {
    if |files| > 0 {
      ScanAppends(st, last, files[..|files| - 1], cfg);
      if files[|files| - 1].mtime > last {
        AppendsNewFile(st, last, files, cfg);
      } else {
        SkipsOldFile(st, last, files, cfg);
      }
    }
  }

  /** The step of ScanAppends for a last file newer than the watermark. */
  lemma AppendsNewFile(st: BatchState, last: real, files: seq<FolderEntry>, cfg: Config)
    requires Covers(st.index, cfg.mapping)
    requires |files| > 0 && files[|files| - 1].mtime > last
    requires var init := files[..|files| - 1];
             Scan(st, last, init, cfg).processed == st.processed + Assignments(init, last, cfg) &&
             forall c :: c in st.index ==>
               Scan(st, last, init, cfg).index[c] == st.index[c] + Bucket(Assignments(init, last, cfg), c)
    ensures Scan(st, last, files, cfg).processed == st.processed + Assignments(files, last, cfg)
    ensures forall c :: c in st.index ==>
      Scan(st, last, files, cfg).index[c] == st.index[c] + Bucket(Assignments(files, last, cfg), c)
  {
    var init, f := files[..|files| - 1], files[|files| - 1];
    var mid := Scan(st, last, init, cfg);
    var before := Assignments(init, last, cfg);
    var a := AssignmentOf(cfg, f);
    var next, log := Scan(st, last, files, cfg), Assignments(files, last, cfg);
    AssignmentsSnoc(files, last, cfg);
    assert log == before + [a];
    assert next == Visit(mid, f, last, cfg);
    VisitNewFile(mid, f, last, cfg);
    AppendAssociates(st.processed, before, [a]);
    BucketStep(st.index, mid.index, before, a);
  }

  /** One newer file: its assignment goes to the end of the log and its path
      to the end of its bucket. */
  lemma VisitNewFile(st: BatchState, f: FolderEntry, last: real, cfg: Config)
    requires Covers(st.index, cfg.mapping) && f.mtime > last
    ensures var a := AssignmentOf(cfg, f);
            a.category in st.index &&
            Visit(st, f, last, cfg).index == st.index[a.category := st.index[a.category] + [a.path]] &&
            Visit(st, f, last, cfg).processed == st.processed + [a]
  {
  }

  /** The step of ScanAppends for a last file at or below the watermark. */
  lemma SkipsOldFile(st: BatchState, last: real, files: seq<FolderEntry>, cfg: Config)
    requires Covers(st.index, cfg.mapping)
    requires |files| > 0 && files[|files| - 1].mtime <= last
    ensures Scan(st, last, files, cfg) == Scan(st, last, files[..|files| - 1], cfg)
    ensures Assignments(files, last, cfg) == Assignments(files[..|files| - 1], last, cfg)
  {
    AssignmentsSnoc(files, last, cfg);
  }

  lemma BucketStep(start: Index, mid: Index, before: seq<Assignment>, a: Assignment)
    requires a.category in mid
    requires forall c :: c in start ==> c in mid && mid[c] == start[c] + Bucket(before, c)
    ensures forall c :: c in start ==>
      mid[a.category := mid[a.category] + [a.path]][c] == start[c] + Bucket(before + [a], c)
  {
    var after := before + [a];
    assert after[..|after| - 1] == before;
  }

  lemma AssignmentsSnoc(files: seq<FolderEntry>, last: real, cfg: Config)
    requires |files| > 0
    ensures var init, f := files[..|files| - 1], files[|files| - 1];
            Assignments(files, last, cfg) ==
            Assignments(init, last, cfg) + if f.mtime > last then [AssignmentOf(cfg, f)] else []
  {
    var init, f := files[..|files| - 1], files[|files| - 1];
    var added := if f.mtime > last then [f] else [];
    assert NewFiles(files, last) == NewFiles(init, last) + added;
    AssignAppend(cfg, NewFiles(init, last), added);
  }

  /** Assigning a concatenation assigns each part. */
  lemma AssignAppend(cfg: Config, xs: seq<FolderEntry>, ys: seq<FolderEntry>)
    ensures seq(|xs + ys|, k requires 0 <= k < |xs + ys| => AssignmentOf(cfg, (xs + ys)[k])) ==
            seq(|xs|, k requires 0 <= k < |xs| => AssignmentOf(cfg, xs[k])) +
            seq(|ys|, k requires 0 <= k < |ys| => AssignmentOf(cfg, ys[k]))
  {
  }

  lemma ScanSnoc(st: BatchState, last: real, files: seq<FolderEntry>, f: FolderEntry, cfg: Config)
    requires Covers(st.index, cfg.mapping)
    ensures Scan(st, last, files + [f], cfg) == Visit(Scan(st, last, files, cfg), f, last, cfg)
  {
    assert (files + [f])[..|files|] == files;
  }

  /** The new watermark is the largest of the old one and the modification
      times of the files processed: never below the old value. */
  lemma ScanWatermark(st: BatchState, last: real, files: seq<FolderEntry>, cfg: Config)
    requires Covers(st.index, cfg.mapping)
    ensures Scan(st, last, files, cfg).watermark >= st.watermark
    ensures forall k :: 0 <= k < |files| && files[k].mtime > last ==>
      files[k].mtime <= Scan(st, last, files, cfg).watermark
    ensures Scan(st, last, files, cfg).watermark == st.watermark ||
      exists k :: 0 <= k < |files| && files[k].mtime > last && files[k].mtime == Scan(st, last, files, cfg).watermark
  {
    ScanWatermarkIs(st, last, files, cfg);
    NewWatermarkIsMax(st.watermark, last, files);
  }

  /** `new_last_timestamp` after the files: the running maximum of the
      starting value and the mtimes newer than the checkpoint. */
  function NewWatermark(start: real, last: real, files: seq<FolderEntry>): real
    decreases |files|
  {
    if |files| == 0 then start
    else
      var w, f := NewWatermark(start, last, files[..|files| - 1]), files[|files| - 1];
      if f.mtime > last && f.mtime > w then f.mtime else w
  }

  lemma {:induction false} ScanWatermarkIs(st: BatchState, last: real, files: seq<FolderEntry>, cfg: Config)
    requires Covers(st.index, cfg.mapping)
    ensures Scan(st, last, files, cfg).watermark == NewWatermark(st.watermark, last, files)
    decreases |files|
  {
    if |files| > 0 {
      ScanWatermarkIs(st, last, files[..|files| - 1], cfg);
      VisitWatermark(Scan(st, last, files[..|files| - 1], cfg), files[|files| - 1], last, cfg);
    }
  }

  /** The running maximum is at least the start and every newer mtime, and
      is one of them. */
  lemma {:induction false} NewWatermarkIsMax(start: real, last: real, files: seq<FolderEntry>)
    ensures NewWatermark(start, last, files) >= start
    ensures forall k :: 0 <= k < |files| && files[k].mtime > last ==> files[k].mtime <= NewWatermark(start, last, files)
    ensures NewWatermark(start, last, files) == start ||
      exists k :: 0 <= k < |files| && files[k].mtime > last && files[k].mtime == NewWatermark(start, last, files)
    decreases |files|
  {
    if |files| > 0 {
      var init := files[..|files| - 1];
      NewWatermarkIsMax(start, last, init);
      WatermarkStep(files, last, start, NewWatermark(start, last, init), NewWatermark(start, last, files));
    }
  }

  /** One more file keeps the three facts of `NewWatermarkIsMax`. */
  lemma WatermarkStep(files: seq<FolderEntry>, last: real, start: real, w: real, w': real)
    requires |files| > 0 && w >= start
    requires forall k :: 0 <= k < |files| - 1 && files[k].mtime > last ==> files[k].mtime <= w
    requires w == start || exists k :: 0 <= k < |files| - 1 && files[k].mtime > last && files[k].mtime == w
    requires w' == if files[|files| - 1].mtime > last && files[|files| - 1].mtime > w then files[|files| - 1].mtime else w
    ensures w' >= start
    ensures forall k :: 0 <= k < |files| && files[k].mtime > last ==> files[k].mtime <= w'
    ensures w' == start || exists k :: 0 <= k < |files| && files[k].mtime > last && files[k].mtime == w'
  {
  }

  lemma VisitWatermark(st: BatchState, f: FolderEntry, last: real, cfg: Config)
    requires Covers(st.index, cfg.mapping)
    ensures Visit(st, f, last, cfg).watermark ==
            if f.mtime > last && f.mtime > st.watermark then f.mtime else st.watermark
  {
  }

  /** A run over files none of which is newer than the watermark changes
      nothing. */
  lemma {:induction false} ScanSkipsOld(st: BatchState, last: real, files: seq<FolderEntry>, cfg: Config)
    requires Covers(st.index, cfg.mapping)
    requires forall k :: 0 <= k < |files| ==> files[k].mtime <= last
    ensures Scan(st, last, files, cfg) == st
    decreases |files|
  {
    if |files| > 0 {
      ScanSkipsOld(st, last, files[..|files| - 1], cfg);
    }
  }

  /** Files at or below the watermark take no part: the run is the same over
      the newer files alone, so the pipeline never needs their results. */
  lemma {:induction false} ScanOnlyNewFiles(st: BatchState, last: real, files: seq<FolderEntry>, cfg: Config)
    requires Covers(st.index, cfg.mapping)
    ensures Scan(st, last, files, cfg) == Scan(st, last, NewFiles(files, last), cfg)
    decreases |files|
  {
    if |files| > 0 {
      var init, f := files[..|files| - 1], files[|files| - 1];
      ScanOnlyNewFiles(st, last, init, cfg);
      if f.mtime > last {
        assert NewFiles(files, last) == NewFiles(init, last) + [f];
        ScanSnoc(st, last, NewFiles(init, last), f, cfg);
      } else {
        assert NewFiles(files, last) == NewFiles(init, last);
      }
    }
  }

  /** Running again over the same folder, from the index and watermark the
      first run produced, processes nothing and leaves both unchanged; the
      checkpoint is not rewritten. */
  lemma RerunIsNoOp(index: Index, last: real, files: seq<FolderEntry>, cfg: Config)
    requires Covers(index, cfg.mapping)
    ensures var first := Scan(BatchState(index, last, []), last, files, cfg);
            Scan(BatchState(first.index, first.watermark, []), first.watermark, files, cfg) ==
            BatchState(first.index, first.watermark, [])
  {
    var first := Scan(BatchState(index, last, []), last, files, cfg);
    ScanWatermark(BatchState(index, last, []), last, files, cfg);
    ScanSkipsOld(BatchState(first.index, first.watermark, []), first.watermark, files, cfg);
  }

  /** Filtering by the watermark distributes over concatenation, so the
      files processed keep their listing order. */
  lemma {:induction false} NewFilesAppend(xs: seq<FolderEntry>, ys: seq<FolderEntry>, last: real)
    ensures NewFiles(xs + ys, last) == NewFiles(xs, last) + NewFiles(ys, last)
    decreases |ys|
  {
    if |ys| == 0 {
      assert xs + ys == xs;
    } else {
      var init, y := ys[..|ys| - 1], ys[|ys| - 1];
      var tail := if y.mtime > last then [y] else [];
      assert (xs + ys)[..|xs + ys| - 1] == xs + init && (xs + ys)[|xs + ys| - 1] == y;
      assert NewFiles(xs + ys, last) == NewFiles(xs + init, last) + tail;
      assert NewFiles(ys, last) == NewFiles(init, last) + tail;
      NewFilesAppend(xs, init, last);
      AppendAssociates(NewFiles(xs, last), NewFiles(init, last), tail);
    }
  }

  lemma {:induction false} NoNewFiles(files: seq<FolderEntry>, last: real)
    requires forall k :: 0 <= k < |files| ==> files[k].mtime <= last
    ensures NewFiles(files, last) == []
    decreases |files|
  {
    if |files| > 0 {
      NoNewFiles(files[..|files| - 1], last);
    }
  }

  lemma {:induction false} OneNewFile(files: seq<FolderEntry>, last: real, k: nat)
    requires k < |files| && files[k].mtime > last
    requires forall j :: 0 <= j < |files| && j != k ==> files[j].mtime <= last
    ensures NewFiles(files, last) == [files[k]]
    decreases |files|
  {
    var init := files[..|files| - 1];
    if k == |files| - 1 {
      NoNewFiles(init, last);
    } else {
      OneNewFile(init, last, k);
    }
  }

  /** A run that finds one file newer than the watermark processes that file
      only: its path goes to the bucket of its category, and the watermark
      moves to its modification time. */
  lemma SingleNewFile(st: BatchState, files: seq<FolderEntry>, k: nat, cfg: Config)
    requires Covers(st.index, cfg.mapping)
    requires k < |files| && files[k].mtime > st.watermark
    requires forall j :: 0 <= j < |files| && j != k ==> files[j].mtime <= st.watermark
    ensures var a := AssignmentOf(cfg, files[k]);
            Scan(st, st.watermark, files, cfg) ==
            BatchState(st.index[a.category := st.index[a.category] + [a.path]], files[k].mtime, st.processed + [a])
  {
    ScanOnlyNewFiles(st, st.watermark, files, cfg);
    OneNewFile(files, st.watermark, k);
    assert [files[k]][..0] == [];
  }

  /** The total number of paths in the buckets named by `categories`. */
  function BucketSizes(index: Index, categories: seq<string>): nat
    requires forall c :: c in categories ==> c in index
  {
    if |categories| == 0 then 0 else |index[categories[0]]| + BucketSizes(index, categories[1..])
  }

  predicate Distinct(categories: seq<string>) {
    forall i, j :: 0 <= i < j < |categories| ==> categories[i] != categories[j]
  }

  lemma {:induction false} AppendGrowsOneBucket(index: Index, categories: seq<string>, c: string, path: string)
    requires forall x :: x in categories ==> x in index
    requires Distinct(categories) && c in categories
    ensures BucketSizes(index[c := index[c] + [path]], categories) == BucketSizes(index, categories) + 1
    decreases |categories|
  {
    var updated := index[c := index[c] + [path]];
    if categories[0] == c {
      assert c !in categories[1..];
      BucketsUntouched(index, categories[1..], c, path);
    } else {
      AppendGrowsOneBucket(index, categories[1..], c, path);
    }
  }

  lemma {:induction false} BucketsUntouched(index: Index, categories: seq<string>, c: string, path: string)
    requires forall x :: x in categories ==> x in index
    requires c in index && c !in categories
    ensures BucketSizes(index[c := index[c] + [path]], categories) == BucketSizes(index, categories)
    decreases |categories|
  {
    if |categories| > 0 {
      BucketsUntouched(index, categories[1..], c, path);
    }
  }

  /** Every newer file adds exactly one path to exactly one bucket: over all
      the buckets, a run adds as many paths as there are newer files. */
  lemma {:induction false} ScanAddsOnePathPerNewFile(st: BatchState, last: real, files: seq<FolderEntry>, cfg: Config, categories: seq<string>)
    requires Covers(st.index, cfg.mapping)
    requires Distinct(categories) && forall c :: c in categories <==> c in st.index
    ensures BucketSizes(Scan(st, last, files, cfg).index, categories) ==
            BucketSizes(st.index, categories) + |NewFiles(files, last)|
    decreases |files|
  {
    if |files| > 0 {
      var init, f := files[..|files| - 1], files[|files| - 1];
      ScanAddsOnePathPerNewFile(st, last, init, cfg, categories);
      if f.mtime > last {
        var mid := Scan(st, last, init, cfg);
        var a := AssignmentOf(cfg, f);
        AppendGrowsOneBucket(mid.index, categories, a.category, a.path);
      }
    }
  }
}
