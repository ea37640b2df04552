# Galleryze categorisation core in Dafny

A model of the decision logic of Galleryze, a photo gallery that sorts images
into the buckets Docs, People, Animal, Nature, Food and Others.

- **`Categorize`** (`Categorize.dfy`) models the categorisation pipeline of
  `categorize.py`:
  - the category table, with its keyword lists lower-cased when it is loaded;
  - the keyword resolver `map_prediction_to_category`;
  - the hybrid decision rule of `hybrid_pipeline`. The first detector
    observation at or above the confidence threshold whose label is a "Docs"
    or a "People" keyword decides. Otherwise the classifier's top-1 label goes
    through the resolver.
- **`FolderScan`** (`FolderScan.dfy`) models `process_folder`, the checkpointed,
  incremental batch. It loads the stored index, or seeds the six empty buckets.
  It reads the checkpoint watermark, lists the supported images in name order,
  and categorises every image newer than the watermark into exactly one bucket.
  It returns the index to save and, only when the watermark advanced, the
  checkpoint to write. `ProcessFolder` is a method with the source's loop. It
  is proved equal to the recursive function `Scan`, and the lemmas state
  what `Scan` does:
  - it appends and never removes;
  - it skips old files;
  - the watermark is the maximum of the old one and the processed mtimes;
  - a second run over the same folder does nothing;
  - every newer file adds one path.
- **`TfLitePlugin`** (`TfLitePlugin.dfy`) models the rule-based `detectObjects`
  and `classifyImage` branches of the Android plugin. Each is a fixed chain of
  substring tests over the lower-cased last path component, with an
  `INVALID_ARGUMENTS` error for a missing path.
- **`Text`** (`Text.dfy`) holds ASCII lower-casing, substring search and suffix
  tests. **`Wrappers`** (`Wrappers.dfy`) holds `Option` and `Result`.

The detector, the classifier, the file system and the clock are replaced by
values:

- An image's model outputs come from `Config.infer`, a function from path to
  the detector's `(label, score)` observations and the classifier's label.
- The folder listing is a sequence of `(name, mtime)` entries.
- The stored index and the checkpoint text are inputs.
- What would be written to disk is returned.

Two consequences of the code are worth knowing:

- `float()` accepts a sign, so a negative number in the checkpoint file is
  taken as the watermark (`ParseSigned`).
- The bucket receives `os.path.join(folder, name)`, which is absolute only when
  the folder path is (`JoinPath`).

## Model

| member | source | states |
|---|---|---|
| Text.Lower | categorize.py:54 | lower-casing keeps the length and maps each character on its own: an upper-case ASCII letter to its lower-case letter (code + 32), every other character to itself; no upper-case letter remains |
| Text.Contains | android/app/src/main/kotlin/com/example/workspace/TensorFlowLitePlugin.kt:49 | `contains` / `in` holds exactly when the substring occurs at some index |
| Text.LowerIdempotent | categorize.py:54 | lower-casing twice is lower-casing once |
| Categorize.LowerAll | categorize.py:21 | the list comprehension keeps the number of keywords and replaces each by its lower-cased self |
| Categorize.Normalized | categorize.py:20-21 | after loading, the table has the same keys in the same order, and each key's list is its original list lower-cased |
| Categorize.NormalizeMapping | categorize.py:20-21 | the loop that rewrites each key's list in place yields exactly the normalised table |
| Categorize.FirstCategoryWith | categorize.py:55-57 | the scan stops at the first entry whose keywords hold the label; no earlier entry holds it; no result means no entry holds it |
| Categorize.MapPredictionToCategory | categorize.py:53-58 | the result is a table key or "Others"; it is the first key in table order whose keywords hold the lower-cased label; it is "Others" when none does |
| Categorize.ResolveIgnoresCase | categorize.py:53-58 | with the table normalised at load (lines 20-21), resolution equals the reference definition "first key with a keyword equal to the label up to case" |
| Categorize.Keywords | categorize.py:83 | `mapping.get(key, [])`: the key's keyword list, or empty when the key is absent |
| Categorize.KeywordsNormalized | categorize.py:83 | looked up in the table lowered at load (lines 20-21), a key's list is its original list lower-cased |
| Categorize.FirstShortCircuit | categorize.py:79-86 | the first observation, in detector order, at or above the threshold with a Docs or People label; none before it qualifies; none at all when no result |
| Categorize.ShortCircuitCategory | categorize.py:83-86 | an observation that ends the scan yields "Docs" when its label is a Docs keyword, and "People" otherwise |
| Categorize.HybridPipeline | categorize.py:79-100 | the decision is always a table key or "Others" |
| Categorize.FirstShortCircuitAt | categorize.py:79-86 | a qualifying observation with no qualifying one before it is the one the scan returns on |
| Categorize.DocsDetectionWins | categorize.py:79-84 | the first qualifying observation with a Docs label yields "Docs", whatever the later observations and the classifier say |
| Categorize.PeopleDetectionWins | categorize.py:79-86 | the first qualifying observation with a People label but no Docs label yields "People": Docs is tested first within an observation |
| Categorize.ClassifierDecides | categorize.py:88-100 | when no observation short-circuits, the result is the resolver applied to the classifier's label |
| Categorize.AtOrAbove | categorize.py:80 | the observations the scan examines: exactly those of the detector's output at or above the threshold, each as often as it occurs |
| Categorize.AtOrAboveAppend | categorize.py:80 | the threshold filter distributes over concatenation, so the observations kept stay in the detector's order |
| Categorize.FirstShortCircuitFiltered | categorize.py:79-81 | dropping the observations below the threshold leaves the same observation first to end the scan |
| Categorize.BelowThresholdIgnored | categorize.py:79-81 | observations below the threshold never change the decision |
| Categorize.ClassifierIgnoredOnShortCircuit | categorize.py:79-86 | once an observation short-circuits, the classifier's label is irrelevant and the result is Docs or People |
| FolderScan.FreshIndex | categorize.py:113 | a fresh index has exactly the six buckets Docs, People, Animal, Nature, Food, Others, all empty |
| FolderScan.LoadIndex | categorize.py:108-113 | the stored index when the file exists, the fresh one otherwise |
| FolderScan.Strip | categorize.py:120 | `strip()` returns the slice of the text between a whitespace prefix and a whitespace suffix, and neither end of the slice is whitespace |
| FolderScan.LeadingDigits | categorize.py:120 | the run of leading decimal digits is maximal |
| FolderScan.ParseUnsigned | categorize.py:120 | an accepted literal is non-empty, non-negative and made of digits and points |
| FolderScan.ParseWhole | categorize.py:120 | a non-empty run of digits reads as its decimal value |
| FolderScan.ParseDecimal | categorize.py:120 | digits, a point and digits, with at least one digit, read as the whole part plus the fraction |
| FolderScan.ParsedShape | categorize.py:120 | nothing else is accepted as an unsigned literal: only a run of digits, or digits around one point |
| FolderScan.ParseFloat | categorize.py:120 | accepted text, once stripped, is an unsigned literal, or "+" or "-" followed by one, with the literal's value, negated after "-" |
| FolderScan.ParseStripped | categorize.py:120 | text whose stripped form is an unsigned literal, "+" followed by one, or "-" followed by one, with any surrounding whitespace, is read as the literal's value, or its negation after "-" |
| FolderScan.PaddedCheckpoint | categorize.py:119-120 | a checkpoint file holding " 12.5\n" gives the watermark 12.5, its surrounding whitespace stripped |
| FolderScan.ParseSigned | categorize.py:120 | an unsigned literal, "+" followed by it, and "-" followed by it read as its value, its value, and its negation |
| FolderScan.LoadCheckpoint | categorize.py:115-122 | a missing file or unparsable content gives 0; otherwise the parsed value |
| FolderScan.NonNumericCheckpointIsZero | categorize.py:119-122 | text with any character outside whitespace, digits, point and sign, such as "not-a-number", gives the watermark 0 |
| FolderScan.NatToString | categorize.py:153 | `str(n)` is a non-empty string of digits whose value is n, with no leading zero |
| FolderScan.CheckpointRoundTrip | categorize.py:151-153 | a written checkpoint for a whole-second watermark below 10^16 reads back (line 120) as the same watermark |
| FolderScan.SupportedOnly | categorize.py:128 | keeps each entry whose lower-cased name ends in a supported extension, as often as it is listed, and nothing else |
| FolderScan.NameLeTotal | categorize.py:127 | the name order is total |
| FolderScan.InsertByName | categorize.py:127 | inserting into a name-sorted list keeps it sorted and adds exactly the new entry |
| FolderScan.SortByName | categorize.py:127 | `sorted` returns a name-sorted permutation |
| FolderScan.ImageFiles | categorize.py:124-129 | the images examined are sorted by name and are exactly the supported entries of the listing, with multiplicity |
| FolderScan.JoinPath | categorize.py:136 | `os.path.join` ends with the file name; for a relative name it is the folder followed by the name, with a "/" between them exactly when the folder is non-empty and does not end in one |
| FolderScan.CategoryFor | categorize.py:137 | the category of an image, decided on the table lowered at load, is a key of the table or "Others" |
| FolderScan.DocsKeywordIgnoresCase | categorize.py:79-84 | an observation at or above the threshold whose label equals a Docs keyword of the file up to case, with none before it ending the scan, puts the image in Docs |
| FolderScan.AssignmentOf | categorize.py:136-137 | the path of a processed image ends with its file name and lies under the folder for a relative name; its category is a table key or "Others" |
| FolderScan.Visit | categorize.py:132-143 | one iteration keeps the index's set of buckets |
| FolderScan.Scan | categorize.py:131-143 | the loop keeps the index's set of buckets, so every later append finds its bucket |
| FolderScan.ProcessFolder | categorize.py:105-154 | the method returns the index, the processed log and the checkpoint of `Scan`; the checkpoint is written only when the watermark strictly advanced |
| FolderScan.NewFiles | categorize.py:132-134 | the files the loop does not skip: each entry newer than the watermark as often as it is listed, and no other |
| FolderScan.NewFilesAppend | categorize.py:132-134 | skipping distributes over concatenation, so the files processed keep their listing order |
| FolderScan.ScanAppends | categorize.py:132-139 | the processed log gains one entry per newer file, in order; each bucket becomes its old contents followed by the paths categorised into it, so nothing is removed |
| FolderScan.ScanWatermark | categorize.py:141-143 | the new watermark is at least the old one and every processed mtime, and equals the old one or a processed mtime: it is their maximum |
| FolderScan.NewWatermarkIsMax | categorize.py:141-143 | the running maximum of `new_last_timestamp` is at least its start and every newer mtime, and is one of them |
| FolderScan.ScanSkipsOld | categorize.py:133-134 | files at or below the watermark change nothing |
| FolderScan.ScanOnlyNewFiles | categorize.py:132-137 | the run equals the run over the newer files alone, so the pipeline is never needed for skipped files |
| FolderScan.RerunIsNoOp | categorize.py:131-153 | a second run from the first run's index and watermark appends nothing, keeps the watermark and so writes no checkpoint |
| FolderScan.SingleNewFile | categorize.py:132-143 | with one file newer than the checkpoint, only it is processed, its path goes to its category's bucket and the watermark becomes its mtime |
| FolderScan.AppendGrowsOneBucket | categorize.py:138 | an append adds one path in total over distinct buckets |
| FolderScan.ScanAddsOnePathPerNewFile | categorize.py:132-138 | over all buckets, a run adds exactly as many paths as there are newer files |
| TfLitePlugin.TermChains | android/app/src/main/kotlin/com/example/workspace/TensorFlowLitePlugin.kt:88-110 | each term list holds a substring of the name exactly when the source's `contains` chain for that list is true |
| TfLitePlugin.StripTrailingSlashes | android/app/src/main/kotlin/com/example/workspace/TensorFlowLitePlugin.kt:46 | `File` normalisation drops the trailing separators; it also collapses repeated ones, which does not change `.name`, so only the trailing ones are modelled |
| TfLitePlugin.AfterLastSlash | android/app/src/main/kotlin/com/example/workspace/TensorFlowLitePlugin.kt:46 | the name is the separator-free suffix after the last separator |
| TfLitePlugin.FileName | android/app/src/main/kotlin/com/example/workspace/TensorFlowLitePlugin.kt:46 | `File(path).name` holds no separator |
| TfLitePlugin.MatchName | android/app/src/main/kotlin/com/example/workspace/TensorFlowLitePlugin.kt:46 | the matched name has one character per character of the file name, each lower-cased, and holds no separator |
| TfLitePlugin.DetectByName | android/app/src/main/kotlin/com/example/workspace/TensorFlowLitePlugin.kt:48-70 | at most one observation; "doc" gives ("book", 0.95) before any person term; otherwise a person term gives ("person", 0.95); otherwise none |
| TfLitePlugin.DetectObjects | android/app/src/main/kotlin/com/example/workspace/TensorFlowLitePlugin.kt:37-46 | the INVALID_ARGUMENTS "Missing image path" error exactly when no path is given; otherwise the rule's answer for the lower-cased file name |
| TfLitePlugin.ClassifyByName | android/app/src/main/kotlin/com/example/workspace/TensorFlowLitePlugin.kt:87-122 | animal terms first ("class_animal", 0.9), then nature ("class_nature", 0.9), then food ("class_food", 0.9), else ("class_others", 0.5); confidence 0.5 exactly for "class_others" |
| TfLitePlugin.ClassifyImage | android/app/src/main/kotlin/com/example/workspace/TensorFlowLitePlugin.kt:77-85 | the INVALID_ARGUMENTS "Missing image path" error exactly when no path is given; otherwise the rule's answer for the lower-cased file name |
| TfLitePlugin.FileNameInFolder | android/app/src/main/kotlin/com/example/workspace/TensorFlowLitePlugin.kt:46 | the name of `dir/name` is `name` |
| TfLitePlugin.AnswersUseFileNameOnly | android/app/src/main/kotlin/com/example/workspace/TensorFlowLitePlugin.kt:46 | both answers for a path equal the answers for its last component alone |
| TfLitePlugin.AnswersIgnoreFolder | android/app/src/main/kotlin/com/example/workspace/TensorFlowLitePlugin.kt:85 | moving an image to another folder changes neither answer |
| TfLitePlugin.MatchNameLower | android/app/src/main/kotlin/com/example/workspace/TensorFlowLitePlugin.kt:85 | taking the name and lower-casing commute, so the matched name ignores the path's case |
| TfLitePlugin.AnswersIgnoreCase | android/app/src/main/kotlin/com/example/workspace/TensorFlowLitePlugin.kt:46 | upper- and lower-case spellings of a path get the same answers |

## Left out

- The TFLite interpreters are not modelled: allocation, `invoke`, tensor access, the COCO label file, image preprocessing and `decode_predictions` (categorize.py:26-48, 64-77, 89-99). They are foreign numeric code. Their outputs are the `Config.infer` input.
- Reading and writing the JSON index and the checkpoint file are not modelled. Neither are `os.path.exists`, `os.listdir` and `getmtime`. The stored index, the checkpoint text and the `(name, mtime)` listing are inputs, and what would be written is returned.
- The `print` calls are not modelled as output. The "Processed:" line (categorize.py:139) prints the bare file name, while the returned `processed` log holds the joined path that goes into the bucket. The summary lines and `time.ctime` are left out.
- Lower-casing covers the ASCII letters only. Python's `str.lower()` and Kotlin's `toLowerCase(Locale.ROOT)` also fold other Unicode letters.
- Strip removes ASCII whitespace only. Python's `strip()` also removes Unicode whitespace.
- LoadCheckpoint: only decimal notation with an optional sign is read. Exponents, `inf`, `nan`, underscores and non-ASCII digits, all of which Python's `float()` accepts, are treated as unparsable and give 0.
- CheckpointRoundTrip: stated for whole-second watermarks below 10^16 only, where `str()` writes the digits followed by ".0". Python's shortest round-trip `repr` of an arbitrary float is not modelled.
- ProcessFolder: the KeyError raised when a category is not a key of the loaded index is not modelled as an error. The method requires instead that "Others" and every table key are buckets of the index (`Covers`).
- An exception from opening an image or running a model aborts the whole batch in the source. It is not modelled, because `Config.infer` is total.
- `call.argument<String>("imagePath")` is taken as an optional string. A non-string argument makes the cast throw, and the `DETECTION_ERROR` and `CLASSIFICATION_ERROR` answers of the catch blocks (TensorFlowLitePlugin.kt:71-72, 123-124) are not modelled.
- `loadModels`, `closeModels`, the method-channel plumbing, MainActivity.kt, simple_server.py, new_galleryze_script.js and supabase_client.js hold no categorisation logic and are not part of this model.
- The listing is sorted as `(name, mtime)` entries rather than as names before mtimes are read. The two agree because the names in a directory are distinct.
- The category table is the dictionary `json.load` returns, so its keys are distinct (`Mapping`). How JSON text with a repeated key collapses to one entry is not modelled.
- The default threshold 0.35 of `hybrid_pipeline` and `process_folder` (categorize.py:63, 105) is not modelled as a default. The threshold is the `Config.threshold` input.
- The image buffers themselves and floating-point details of scores and mtimes are not modelled. Scores, thresholds and mtimes are exact reals.
