# A verified model of the CEF tools' hard parts

The Chromium Embedded Framework keeps three kinds of code in which a wrong step goes unnoticed for
a long time: the patch tool that rewrites other people's source files (`cef3/tools/patch_util.py`),
the translator that generates the C and C++ stubs between the library and its clients
(`cef3/tools/cef_parser.py`, `make_ctocpp_impl.py`, `make_cpptoc_impl.py`), and two smaller
mechanisms, the API signature (`cef_api_hash.py`) and the cancelable callback
(`cef3/include/base/cef_cancelable_callback.h`). This project models them in Dafny and proves what
they promise, and where the code does not keep the promise, exactly when it does.

`dafny verify dfyconfig.toml` checks everything.

## How the modules fit together

* `Text`: the Python string operations used (strip, split, decimal numbers), with the facts needed.
* `Hunks`: hunks of a unified diff and their two sides. `Splicing`: what applying edits means,
  independently of any program (replace blocks, undo, do the last one first).
* `PatchStream`: `patch_stream` as loops over the open file, proved equal to a function and that
  function to a splice. `PatchMeaning`: when the tool's edits are the ones the unified format
  ("Diff -u or -U Output Format" of the POSIX.1-2008 `diff` utility) prescribes, and what follows:
  positions, reversal, one pass or many, line ends. `LineEndings`: the terminator of every written
  line, mixed sources included.
* `Validation`: the loop in `apply` that decides whether a file can be patched. `CheckPatched`:
  recognising a patched file, and everything `apply` does with one file.
* `ParseStream` and `PatchInfo`: the parser as a state machine, and as the code runs it, with five
  flags and hunk objects that share their text lists. `RoundTrip`: rendering and parsing.
  `PatchFiles`: whole files as characters. `DiffAndPatch`: the whole way from a difference between
  two files over its text to the patched file, and back.
* `ArgTypes`, `Marshalling`: the two stub generators against each other, and what their stubs do to
  vector arguments. `WrapCode`, `Attributes`, `Regeneration`: the line wrapper, the attribute
  parser and printer, and the matcher that keeps hand-edited bodies.
* `ApiHash`: collecting, sorting and signing. `CancelableCallbacks`: the wrapper class and programs
  that use any number of wrappers.

Loops and objects of the original are methods and classes here; each is proved against a function
on values, and the properties are lemmas about those functions.

## Where the code differs from what one expects

* `patch_stream` writes a hunk without source lines in front of the line it should follow, unless the
  lines before are already read, and consumes a source line for every `\ No newline` remark. For one
  file the result is still right exactly if there is no line left to consume and the insertion
  repeats the line it passes (`CorrectIff`, `RemarksAtEnd`); for all files exactly if neither occurs
  (`CorrectIffFaithful`).
* The validator cannot get past a hunk without source lines, so that `apply` refuses every patch of an
  existing file that has one, even if all of it fits (`FittingAcceptedIff`, `DiffAcceptedIff`).
* Overlapping hunks can make the validator index past a hunk's lines (`OverlapRaises`).
* The validator never compares the last source-side line of a hunk (`LastLineIgnored`,
  `MatchIffReadyAndLast`), so a hunk can replace a line that is not the one it expects.
* `check_patched` has read the first line before it compares anything: target sides at the very top
  are looked for one line too far down (`FoundIff`, `FoundMeansHeldIff`), so that the tool's own
  output is then recognised only if these lines and the next one are all the same
  (`TopPatchRecognisedIff`).
* Applying a patch twice is not always reported: `@@ -2,2 +2,3 @@` with the lines ` a`, ` b` and `+c`
  fits again and adds another `c` (`AppendedTwice`). `Reapplies` is the exact condition, computed
  from the file and the hunks (`SecondTime`, `SingleReappliesIff`, `ShiftedReapplyIff`).
* A hunk whose last line starts with `--- ` is read again as a file name (`Recoverable`), and a
  target name is not stripped, unlike a source name.
* A body line without a tag, or a surplus one, ends the parser with a TypeError, and a stream that
  does not end after a complete hunk ends it with a NameError. Both are results of the model.
* A `CefRefPtr` argument passed by address and a map of anything but strings have valid argument
  types, but the generated call then does not fit the prototype (`CallFitsPrototypeIff`).
* A vector that the callee does not touch comes back longer when its count function asks for more
  room (`CrossVector`).
* `Reset` takes its argument by reference. A wrapper that is reset to its own `callback()` wraps
  itself, and its copies forward for ever (`CopiesRunWhatIsInstalled`, `EndlessIff`).

## Model

| member | source | states |
|---|---|---|
| PatchStream.PatchStream | cef3/tools/patch_util.py:475-533 | The loops with the running line number and the line-end counters yield the lines of the reference function, for every file and hunk list; what these lines say, and how they end, the next rows and those of LineEndings state without it |
| PatchStream.PatchedIsSplice | cef3/tools/patch_util.py:507-533 | What the output says is the source with each block the tool reads replaced by the hunk's target side, as an ordered splice, even past the end of a short source |
| PatchMeaning.FaithfulIsUnified | cef3/tools/patch_util.py:507-533 | For ordered hunks with source lines and no remarks the output says what the unified format prescribes and no line is read past the end |
| PatchMeaning.CorrectIff | cef3/tools/patch_util.py:507-533 | For one source and one patch, the output says what the unified format prescribes if and only if there are no remarks or all of them are read past the end of the file, and every insertion written in front of the line it should follow repeats that line |
| PatchMeaning.RemarksAtEnd | cef3/tools/patch_util.py:515-519 | The usual place of remarks, the end of the file, is harmless: a hunk with two of them replaces the only line of a file as prescribed |
| PatchMeaning.CorrectIffFaithful | cef3/tools/patch_util.py:510-523 | A patch is applied as prescribed to every source it fits if and only if it has no remarks and no insertion-only hunk that starts after the lines already read |
| PatchMeaning.OutputLength | cef3/tools/patch_util.py:515-519 | For a long enough source the output has the source's lines plus what the hunks add on balance, short of exactly one line for every remark |
| PatchMeaning.HunkLandsShifted | cef3/tools/patch_util.py:507-533 | For every patch that suits its source, hunk k's target side stands at startsrc shifted by the sum of the earlier hunks' growth |
| Splicing.SpliceLength | cef3/tools/patch_util.py:507-533 | Lines are conserved: the result has the source's length plus the growth of all edits |
| PatchMeaning.PatchedFromIsRawSplice | cef3/tools/patch_util.py:507-533 | Line by line including terminators, the output is a splice whose new lines are what the hunk bodies write |
| PatchMeaning.KeptVerbatim | cef3/tools/patch_util.py:510-512 | A source line outside all hunks appears unchanged, terminator included, at its place shifted by the growth before it |
| PatchMeaning.ReversedIsInverse | cef3/tools/patch_util.py:507-533 | The reversed patch consists of the inverse edits if and only if all source sides match the source and the target numbers account for the earlier growth |
| Splicing.InverseUndoes | cef3/tools/patch_util.py:507-533 | Splicing and then splicing the inverse edits restores the lines |
| PatchMeaning.ReversalRestores | cef3/tools/patch_util.py:507-533 | Patching and then patching with plus and minus swapped gives back what the source said if and only if the reversed patch suits the patched file |
| PatchMeaning.TwoSidedReversalRestores | cef3/tools/patch_util.py:507-533 | In particular for all matching, correctly numbered hunks with lines on both sides and no remarks |
| PatchMeaning.OnePassIsMany | cef3/tools/patch_util.py:507-533 | One pass over an ordered hunk list says the same as one pass for each hunk, the last hunk first |
| Splicing.SpliceLast | cef3/tools/patch_util.py:507-533 | The last edit can be done beforehand without moving the others |
| PatchMeaning.LineEndsKept | cef3/tools/patch_util.py:490-533 | If all source lines have one terminator, all written lines have it if and only if the lines written before any source line was read have it |
| LineEndings.TargetLineWritten | cef3/tools/patch_util.py:490-530 | For every source, mixed and short ones included, every hunk list and every target line: at its place in the output the line has the one terminator of the lines read before it, and if those have none or several, its own |
| LineEndings.EndOfMeans | cef3/tools/patch_util.py:498-503 | A line ends in \r\n, \n or \r, the first of these that fits, or in none |
| LineEndings.StatisticsCount | cef3/tools/patch_util.py:143-151 | After a parse, the statistics of every file are the numbers of its body lines with each terminator |
| Hunks.TagsRead | cef3/tools/patch_util.py:144 | A line is a body line if and only if it begins with a blank, a minus, a plus or a backslash |
| Validation.Validate | cef3/tools/patch_util.py:340-388 | For any hunks the loop does what the walk on values does; for hunks in sequence it never indexes past the hunk, counts exactly the ready hunks, and allows patching exactly when all are ready |
| Validation.WalkedInSequence | cef3/tools/patch_util.py:348-388 | The walk over hunks in sequence raises no IndexError and its verdict is the number of ready hunks |
| Validation.OverlapRaises | cef3/tools/patch_util.py:360-371 | Two hunks out of sequence and a file of seven lines on which a stale hunkfind is indexed past its end |
| Validation.AllReady | cef3/tools/patch_util.py:348-384 | The count reaches the number of hunks if and only if for every hunk the file is long enough and all but its last source-side line match at startsrc |
| Validation.MatchIffReadyAndLast | cef3/tools/patch_util.py:360-384 | The source sides match completely if and only if every hunk is ready and its last line, which is not compared, is equal too |
| Validation.LastLineIgnored | cef3/tools/patch_util.py:360-374 | Whatever an accepted file says where a hunk expects its last source-side line, the file is accepted and the patched file says the same: the actual line is lost |
| Validation.AcceptedIsSafe | cef3/tools/patch_util.py:348-403 | In an accepted file nothing but remarks is read past the end, and it is patched as the unified format prescribes if and only if the remarks fit |
| Validation.ContextKept | cef3/tools/patch_util.py:359-382 | In an accepted file whose remarks fit every context line, a hunk's last source-side line excepted, is written as the source line it stands for said it |
| CheckPatched.CheckPatched | cef3/tools/patch_util.py:418-471 | The loop accepts what Found describes or, for a single hunk at 0, exactly the file that says its target side and nothing more; for target sides in order, none at the first line, it accepts exactly the files with at least one line that hold every target side at starttgt |
| CheckPatched.FoundIff | cef3/tools/patch_util.py:443-463 | For all target sides in order: exactly the files that hold every target side at starttgt, except that the joined target sides at the very top are looked for one line further down |
| CheckPatched.FoundIffHeld | cef3/tools/patch_util.py:449-463 | Without a target side at the first line, the general check accepts a file if and only if it has a line and holds every target side at starttgt |
| CheckPatched.FoundMeansHeldIff | cef3/tools/patch_util.py:443-463 | The check has that meaning for all files if and only if no target side starts at the first line; otherwise a file holding all of them is refused |
| CheckPatched.PatchedIsRecognised | cef3/tools/patch_util.py:443-471 | The output of a suitable, correctly numbered patch whose hunks start below the first line is recognised |
| CheckPatched.TopPatchRecognisedIff | cef3/tools/patch_util.py:443-463 | For any number of hunks, the patched file is recognised if and only if it has a line and the joined target sides at its top, if there are any, and the line after them all say the same |
| CheckPatched.ApplyToFile | cef3/tools/patch_util.py:312-412 | What apply does with one file, for any hunks: without a file it creates one, for a single hunk at 0 that has target lines, whose lines are those of the target side with a newline each; it rewrites a file with the patched lines, reports it as patched or different, finds nothing, leaves it, or crashes; for hunks in sequence by the number of ready hunks |
| CheckPatched.OverlapCrashes | cef3/tools/patch_util.py:360-371 | Overlapping hunks can end the run with an IndexError |
| CheckPatched.FittingAcceptedIff | cef3/tools/patch_util.py:348-388 | A file that the whole patch fits is accepted if and only if every hunk has source lines |
| CheckPatched.NewFileRecognised | cef3/tools/patch_util.py:317-327 | The created lines say the target side, and applying the patch to them reports the file as already patched |
| CheckPatched.SecondTime | cef3/tools/patch_util.py:340-405 | Applying the patch to the patched file rewrites it again if the patch reapplies, that is, if the lines standing behind the patch at each hunk's old place, computed from file and hunks, are those the validator compares; otherwise it reports it as patched or, for a patch at the first line that does not repeat itself, as different |
| CheckPatched.RewrittenIsNeverDifferent | cef3/tools/patch_util.py:392-405 | For a patch below the first line the second application reports the file as patched, unless the patch reapplies |
| CheckPatched.AcceptedAgainIff | cef3/tools/patch_util.py:348-384 | A patched file is accepted by the validator if and only if the patch reapplies to the file it was made from |
| CheckPatched.SingleReappliesIff | cef3/tools/patch_util.py:348-384 | One hunk reapplies if and only if the patched file is long enough and the target side followed by the kept lines begins with all but the last source-side line |
| CheckPatched.ShiftedReapplyIff | cef3/tools/patch_util.py:348-384 | A list of hunks, moved up or down by those before them but not into another hunk's new lines, reapplies if and only if each source side, but for its last line, stands at its old place among the hunk's new lines and the kept lines around them |
| CheckPatched.AppendReapplies | cef3/tools/patch_util.py:348-384 | A hunk that only appends to its source side always reapplies |
| CheckPatched.AppendedTwice | cef3/tools/patch_util.py:340-405 | The failing case: the lines x, a, b and a hunk adding c after a and b; the second application adds c again |
| ParseStream.StepKeepsValid | cef3/tools/patch_util.py:134-296 | Every line keeps the parser's invariant: the lists grow together, stored hunks have the announced numbers of lines, the counters count the current body and the statistics all body lines |
| ParseStream.ParsedIsConsistent | cef3/tools/patch_util.py:109-306 | For any stream that parses, targets, hunk lists and statistics are equally many, at least one and at most as many as sources, and every hunk is complete |
| ParseStream.HeadShape | cef3/tools/patch_util.py:196-264 | Whatever is taken for a hunk head is @@ -, digits, perhaps a comma and digits, the same after a plus, and anything; its numbers are those read, a missing count is 1 |
| Text.FirstDigit | cef3/tools/patch_util.py:277-286 | Numbers are read in base ten, leading zeros included |
| ParseStream.NamesRead | cef3/tools/patch_util.py:204-251 | A file name reaches up to a tab and must not be empty; a source name is stripped, a target name is not and begins a new list of hunks |
| ParseStream.StrayLines | cef3/tools/patch_util.py:134-268 | Lines that begin with nothing the parser expects are passed over before a file and after a hunk, and otherwise send it back to the header |
| ParseStream.RaisesIff | cef3/tools/patch_util.py:143-184 | A line raises an exception if and only if it stands inside a hunk and has no tag, or goes beyond one of the announced numbers of lines |
| ParseStream.NoNames | cef3/tools/patch_util.py:134-299 | A stream without a source name line ends in a NameError |
| PatchInfo.PatchInfo.ParseStream | cef3/tools/patch_util.py:109-306 | The parser with five flags, counters and shared text lists ends with the lists, or the exception, of the state machine; the stored objects stand for the parsed hunks |
| PatchInfo.PatchInfo.StoreHunk | cef3/tools/patch_util.py:180-184 | Storing a shallow copy keeps all earlier hunks although the copy shares its text list |
| PatchInfo.PatchInfo.ReadLine | cef3/tools/patch_util.py:134-296 | One round of the loop does one step of the state machine, with exactly one flag up before and after |
| RoundTrip.ParseRenderIff | cef3/tools/patch_util.py:109-306 | Parsing the unified rendering of a patch, counts of 1 possibly omitted, gives back exactly its names, hunks and statistics if and only if the target names end at a tab or the line end and no hunk ends in a line that is taken for a file name |
| RoundTrip.LosesHunkOfFiles | cef3/tools/patch_util.py:195-223 | If a hunk other than a file's last ends in such a line, the parse fails or has fewer hunks than the patch |
| PatchFiles.JoinLines | cef3/tools/patch_util.py:541-546 | Reading a file line by line and writing the lines loses nothing |
| PatchFiles.LinesCut | cef3/tools/patch_util.py:541-546 | Every line read but the last ends in its only newline, and the last has at most one, at its end |
| PatchFiles.PatchHunks | cef3/tools/patch_util.py:537-554 | For a file with one kind of terminator and a fitting patch, the written file falls into lines that all have that terminator and say what the unified format prescribes |
| PatchFiles.FileRestored | cef3/tools/patch_util.py:537-554 | For a file with one kind of terminator, patching it and patching the result with the reversed hunks gives back the file character by character |
| PatchFiles.CreatedFileSays | cef3/tools/patch_util.py:321-327 | A created file, read back as characters, has the lines of the hunk's target side, each with a newline |
| PatchFiles.CreatedFileRecognised | cef3/tools/patch_util.py:317-337 | Applying the patch to the created file as it is read back reports it as already patched |
| DiffAndPatch.PatchMakesNew | cef3/tools/patch_util.py:340-405 | For any difference with source lines in every hunk, a file that says the old lines is accepted, and rewritten to say the new lines if and only if the remarks fit |
| DiffAndPatch.DiffAcceptedIff | cef3/tools/patch_util.py:340-388 | A file that says the old lines is accepted if and only if every hunk of the difference has source lines; hunks that only insert are refused although they fit |
| DiffAndPatch.ReversedPatchMakesOld | cef3/tools/patch_util.py:340-405 | The reversed hunks are accepted for the patched file, last lines included, and make it say the old lines if and only if their remarks fit |
| DiffAndPatch.PatchTwice | cef3/tools/patch_util.py:340-405 | Applying the patch to the new file patches it again if and only if all lines the validator compares stand in the new file where they stood in the old one; otherwise the file is reported as patched, or as different if the patch starts at the first line and does not repeat itself there |
| DiffAndPatch.WholeWay | cef3/tools/patch_util.py:109-412 | A difference written into a patch document, parsed, validated and applied turns the old lines into the new ones if and only if the remarks fit |
| DiffAndPatch.EveryPairHasDiff | cef3/tools/patch_util.py:340-405 | Any two files with at least one line each have a difference to which these results apply |
| ArgTypes.GetCApiParts | cef3/tools/cef_parser.py:1025-1060 | The loop yields self, for virtual functions, and the declared parameters of the arguments in order, or the exception of the first argument without a C type |
| ArgTypes.InvalidIff | cef3/tools/cef_parser.py:1246-1347 | An argument type is invalid if and only if it is a structure by address, a string not by reference, a list not by reference or of structures, or a map not by reference |
| ArgTypes.TypeTells | cef3/tools/cef_parser.py:1246-1347 | Every other type names the family of the argument, how it is passed and const where the table distinguishes it |
| ArgTypes.InvalidRetvalIff | cef3/tools/cef_parser.py:1349-1380 | A return type is invalid if and only if it is const, by reference or by address, or a list or a map |
| ArgTypes.PrototypeShape | cef3/tools/cef_parser.py:1786-1813 | The parameters of one argument: a size in front of arrays, its pointers, and which arguments have no C type |
| ArgTypes.MakeCToCppParams | cef3/tools/make_ctocpp_impl.py:42-270 | The client stub is generated if and only if no argument is one of the unsupported kinds and passings and the return type is supported, otherwise it names what is not, in order; it passes the parameters of the arguments in order behind the struct |
| ArgTypes.CallFitsPrototypeIff | cef3/tools/make_ctocpp_impl.py:146-270 | The client stub's call matches the prototype in length, order, pointers and count passing if and only if no reference pointer is passed by address and every map is one of strings |
| ArgTypes.CallFitsMethodIff | cef3/tools/make_cpptoc_impl.py:140-260 | The library stub passes exactly one expression for each C++ argument, and all are acceptable if and only if no reference pointer is passed by address |
| Marshalling.CToCppConst | cef3/tools/make_ctocpp_impl.py:245-270 | Through both stubs the callee sees every element of a const vector, converted there and back, in order |
| Marshalling.CppToCVector | cef3/tools/make_cpptoc_impl.py:104-109 | The library stub verifies its parameters, calls with the array's elements, and writes back the first min(size, count) elements and that count, leaving the rest of the array alone |
| Marshalling.CToCppVector | cef3/tools/make_ctocpp_impl.py:215-244 | Through both stubs the callee sees the caller's elements padded with zeros to max(count_func(), size), and the caller ends with the first min(result, capacity) elements of the callee's result |
| Marshalling.CrossVector | cef3/tools/make_ctocpp_impl.py:366-392 | With conversions that undo each other the caller ends with a prefix of the callee's result, with all of it if and only if it fits max(count_func(), size), and a callee that changes nothing leaves the vector alone if and only if the count function asks for no more elements than it has |
| Marshalling.CrossBools | cef3/tools/make_cpptoc_impl.py:224-257 | Booleans that cross as ints, nonzero read as true, come through both stubs like any other element |
| WrapCode.Wrap | cef3/tools/cef_parser.py:30-95 | The scan with lastsplit, nextsplit and splitct breaks every long line at the reference's cuts |
| WrapCode.WrapKeepsContent | cef3/tools/cef_parser.py:30-95 | With a whitespace indent, input and output agree after deleting whitespace |
| WrapCode.WrapFits | cef3/tools/cef_parser.py:55-92 | With split characters that are not whitespace, a line of the output wider than maxchars has no split character before its last character |
| WrapCode.CutIffGreedy | cef3/tools/cef_parser.py:61-83 | The end of a piece is the one and only greedy break: if it could have been broken earlier it fits, and it could not have reached the next break, or the end of the line with room to spare |
| WrapCode.WrapAgain | cef3/tools/cef_parser.py:30-95 | Wrapping the output again only adds a final empty line, whether its lines fit or could not be broken, as long as none ends in a carriage return |
| WrapCode.ContinuationsPadded | cef3/tools/cef_parser.py:46-53 | Each further output line of a broken line begins with the line's own leading whitespace and the indent |
| WrapCode.NormalizedAt | cef3/tools/cef_parser.py:37-38 | Every \r\n of the input counts as \n |
| WrapCode.NormalizedNone | cef3/tools/cef_parser.py:37-38 | Other characters are left alone |
| Attributes.StrToDict | cef3/tools/cef_parser.py:299-325 | Every name gets the values of all its parts in order of appearance, wherever they stand, a single one as such and several as a list; an exception is raised if and only if some part has two equals signs |
| Attributes.ReadsNameValue | cef3/tools/cef_parser.py:304-315 | A part with one equals sign reads as what stands on its two sides, both trimmed |
| Attributes.ReadsName | cef3/tools/cef_parser.py:304-315 | A part without one reads as its trimmed text with the value True |
| Attributes.ReadsBlank | cef3/tools/cef_parser.py:304-307 | A part of blanks reads as nothing |
| Attributes.ReadsTooMany | cef3/tools/cef_parser.py:308-310 | A part with two equals signs or more is malformed |
| Attributes.DictToStr | cef3/tools/cef_parser.py:327-342 | The loops write the parts of all names in dictionary order; they raise if and only if some name has a list that contains True |
| Attributes.AttributesRoundTripIff | cef3/tools/cef_parser.py:299-342 | Writing a dictionary in any order of its names and reading it gives it back if and only if it is canonical: trimmed names and values without comma and equals sign, no empty name for True, lists of two or more strings |
| Regeneration.GetNextFunctionImpl | cef3/tools/cef_parser.py:437-444 | Returns the first implementation of the name and removes it, and only it, from the list |
| Regeneration.MakeFunctionImpls | cef3/tools/make_ctocpp_impl.py:449-462 | The loop gives each function what it receives in turn and leaves the unused ones in the list; a received body is kept if and only if the text `// AUTO-GENERATED CONTENT` begins nowhere in it, and every other function is generated |
| Regeneration.KthReceivesKth | cef3/tools/make_ctocpp_impl.py:449-462 | The k-th function of a name receives the k-th implementation of that name, if there is one |
| Regeneration.EachUsedOnce | cef3/tools/cef_parser.py:437-444 | Received and unused implementations together are exactly the existing ones: none is used twice, none is lost |
| Regeneration.UnusedKeepsOrder | cef3/tools/cef_parser.py:437-444 | The unused implementations keep their order |
| Regeneration.UnusedNamed | cef3/tools/cef_parser.py:437-444 | Of every name exactly the implementations beyond the number of functions of that name stay unused |
| Regeneration.HandEditsSurviveIff | cef3/tools/make_ctocpp_impl.py:24-35 | The k-th hand-edited body of a name is emitted verbatim if and only if more than k functions have that name |
| Regeneration.GeneratedAgain | cef3/tools/make_ctocpp_impl.py:88 | A body that begins as the generator writes it is generated anew |
| ApiHash.IsPlatformFilename | cef3/tools/cef_api_hash.py:179-193 | A header belongs to the universal set, and to a known platform if and only if it is listed for it or not listed for any platform |
| ApiHash.Calculate | cef3/tools/cef_api_hash.py:56-100 | The loops compute the signatures of the sorted, collected objects for the universal set and every platform |
| ApiHash.CollectsAll | cef3/tools/cef_api_hash.py:56-76 | Of every header exactly its declarations are collected, in their order, with the platforms the header belongs to |
| ApiHash.GetFinalSig | cef3/tools/cef_api_hash.py:158-165 | Joins the texts of the platform's objects in order |
| ApiHash.SignedAround | cef3/tools/cef_api_hash.py:158-163 | Every object has its part at its place: its text if it belongs to the platform or the signature is the universal one |
| ApiHash.JoinSplits | cef3/tools/cef_api_hash.py:165 | Texts without newlines are got back by splitting the signature at its newlines |
| ApiHash.SortIsStable | cef3/tools/cef_api_hash.py:79-80 | The sort orders by name@filename and keeps objects with the same key in their order |
| ApiHash.LeqMeans | cef3/tools/cef_api_hash.py:80 | Keys are compared at their first difference, a front before the whole |
| ApiHash.OrderDoesNotMatter | cef3/tools/cef_api_hash.py:56-80 | For any two orders of the same headers and any stable sort, the sorted objects are the same |
| ApiHash.HashesDoNotDependOnOrder | cef3/tools/cef_api_hash.py:56-100 | Hence all signatures are the same |
| ApiHash.PlatformWithinUniversal | cef3/tools/cef_api_hash.py:158-165 | The texts a platform signs are a subsequence of those the universal signature signs |
| ApiHash.OtherPlatformsDoNotMatter | cef3/tools/cef_api_hash.py:56-100 | A platform's signature depends only on its own headers and the shared ones |
| CancelableCallbacks.CancelableCallback.Cancel | cef3/include/base/cef_cancelable_callback.h:113-118 | Invalidates the flag and leaves the wrapper as default-constructed |
| CancelableCallbacks.CancelableCallback.Reset | cef3/include/base/cef_cancelable_callback.h:127-137 | Invalidates the old flag, binds a fresh forwarder and stores the argument, which is a reference and may be the new forwarder itself |
| CancelableCallbacks.CancelableCallback.GetCallback | cef3/include/base/cef_cancelable_callback.h:139-142 | callback() hands out a copy of the forwarder |
| CancelableCallbacks.RunKeepsInvariant | cef3/include/base/cef_cancelable_callback.h:95-166 | Over every run, a wrapper is empty or has a valid forwarder of its own and a callback, and only such forwarders are valid |
| CancelableCallbacks.ForwarderNullIffCallbackNull | cef3/include/base/cef_cancelable_callback.h:113-142 | At any time the forwarder is null if and only if the callback is |
| CancelableCallbacks.OldCopiesRunNothing | cef3/include/base/cef_cancelable_callback.h:113-118 | What the forwarder of a wrapper is before a Cancel, Reset or destruction of it runs nothing afterwards, whatever else happens |
| CancelableCallbacks.TakenThenEnded | cef3/include/base/cef_cancelable_callback.h:113-142 | In any program, the copy that callback() hands out runs nothing once its wrapper has been cancelled, reset or destroyed |
| CancelableCallbacks.TakenRunsInstalled | cef3/include/base/cef_cancelable_callback.h:127-153 | Until then the copy runs the callback that the latest constructor or Reset installed, or forwards for ever if that was the wrapper's own |
| CancelableCallbacks.TakenRunsFunction | cef3/include/base/cef_cancelable_callback.h:99-153 | If a client's function was installed, the copy runs that function |
| CancelableCallbacks.TakenWhenEmpty | cef3/include/base/cef_cancelable_callback.h:113-142 | A copy of an empty wrapper's callback is null |
| CancelableCallbacks.NestedThenEnded | cef3/include/base/cef_cancelable_callback.h:113-153 | A wrapper of another wrapper's copy runs nothing once the other one has been ended |
| CancelableCallbacks.CopiesRunWhatIsInstalled | cef3/include/base/cef_cancelable_callback.h:127-153 | A copy taken from a live wrapper runs exactly the callback installed by the latest constructor or Reset, except that a wrapper reset to its own callback forwards for ever |
| CancelableCallbacks.CopiesRunTheFunction | cef3/include/base/cef_cancelable_callback.h:99-153 | From the start of any program, if a client's function was installed, the copy runs that function |
| CancelableCallbacks.CopiesAreSafe | cef3/include/base/cef_cancelable_callback.h:155-156 | No copy ever reaches a destroyed wrapper or a null callback |
| CancelableCallbacks.EndlessIff | cef3/include/base/cef_cancelable_callback.h:145-153 | The outcome Endless means that the forwarders never come to an end, any other that they do |
| CancelableCallbacks.EndlessIffSelfReset | cef3/include/base/cef_cancelable_callback.h:127-153 | After any program some callback forwards for ever if and only if some wrapper was reset to its own callback and not cancelled, reset or destroyed since |
| CancelableCallbacks.ForwardingEnds | cef3/include/base/cef_cancelable_callback.h:127-153 | If no wrapper is reset to its own callback, every run of every copy ends, however wrappers wrap each other |

## Left out

The patch tool:

- Opening, moving, backing up and deleting files, file modes and messages: a file is its lines, an absent file is None. That the `.orig` file exists already, and that a path is not a plain file, are not modelled. The validator and `check_patched` open files in text mode; translation of line ends by the platform is not modelled.
- The regular expression engine: each pattern is a function on strings (`HunkHeadOf`, `NameOf`, `BodyLineOf`); `\d` is an ASCII digit.
- Branches that test a file number for membership in a list of names or hunks: the test is always false or always true, so that one side of each is absent.
- `nexthunkno` and `hunkactual` before the first hunk: they only number messages, or are not read.
- After a TypeError or NameError the partly filled lists are not described; the exception is.
- Validation.Validate: for hunks that are not in sequence it is tied to the walk on values only, which has no simpler reading; a unified diff has its hunks in sequence.
- PatchMeaning.FaithfulIsUnified: requires hunks in order that end inside the source; the exact condition is CorrectIff, and patch_stream's behaviour for all other inputs is stated by PatchedIsSplice.
- `apply` over all files of a patch: each file is independent of the others unless names coincide, and the loop only repeats `ApplyToFile`.
- `from_file` and the command line, which only open files; `from_string` uses `StringIO.StringIO` although the module imports the class itself.

The translator:

- Parsing of headers, name casing, comments, copyright and include collection, prototype-change comments, and the text of generated code apart from its parameters and vector loops.
- The translation and default of return values, beyond the validity of their types; const qualifiers of C types, DCHECKs, and the verification of optional and index parameters beyond the null and count checks of vectors.
- Marshalling.CToCppVector: does not model memory release; the array is deleted only when the returned count is positive, so freedom from leaks would be false.
- `Wrap` and `Unwrap` of reference pointers and the C string containers: conversions are parameters, and CrossVector assumes that they undo each other.
- Attributes: dictionary order is a parameter, because `dict.keys()` promises none.
- WrapCode: only the whitespace characters of ASCII are whitespace.

The API signature:

- Reading, stripping and parsing header files is a parameter that maps a file to its declarations; ApiHash.HashesDoNotDependOnOrder assumes that declared names contain no `@`, which the identifier pattern guarantees. The list of excluded files is applied before. SHA-1 and debug output are not modelled.

The cancelable callback:

- Arguments of callbacks and the templates for them: all specialisations are alike.
- Threads, and bind internals: running a forwarder with an invalid flag does nothing.
- The factory's test whether other references to its flag exist: both callers of InitializeForwarder come with no flag, which its precondition states, so that a fresh flag is made in any case.
- What a client's function does while it runs: its operations follow in the program's run.

The rest of the repository: the public interfaces have no implementation to model, the generated pass-throughs only call what the stub generators produce, and the build scripts mostly run other programs.
