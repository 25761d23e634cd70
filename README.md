# DMARC report pipeline, modelled in Dafny

The pipeline has two AWS Lambda stages that turn DMARC aggregate reports
(RFC 7489, Appendix C) received by e-mail into newline-delimited JSON.

The **Extractor** (`functions/dmarc-compressed-extractor.py`) works like this:
- It reads the stored e-mail.
- It accepts the message only when the message has exactly two top-level
  parts, and then works on the second one.
- It classifies that attachment as gzip (tested first) or zip, by substrings
  of its content type and file name.
- It writes the report into the scratch directory `/tmp/output/`:
  - for gzip, one file, named after the Content-Disposition header with the
    last three characters dropped;
  - for zip, every member of the archive.
- It then uploads every `.xml` name in that directory under `xml/`.
- When OUTPUT_BUCKET_NAME is set to the empty string, it uses the source
  bucket instead, and keeps that bucket for the rest of the container's life.

The **Transformer** (`functions/dmarc-transformation.py`) works like this:
- It rejects report text whose lower-cased form contains "entity" or
  "system", treating it as a possible entity injection.
- It stops cleanly, storing nothing, when the text is not well-formed XML.
- Otherwise it flattens the report into one record per top-level `record`
  element:
  - each record has a fixed set of 18 keys;
  - a path that matches nothing gives "none";
  - each record carries one DKIM sub-record per `auth_results/dkim`
    element.
- It stores one JSON line per record dictionary under the object key's base
  name followed by `.json`.

Modules:
- `Wrappers`: `Option` and `Result`.
- `Sequences`: a front-to-back map and distinct listings.
- `Strings`: the Python string operations the code uses.
  - `in` and `lower()` (ASCII only, as Python 2 `str.lower` is).
  - `split`, `split(...)[-1]`, `rsplit('.', 1)[0]`, `replace(c, '')` and
    `endswith`.
- `ElementTree`: an element tree with `findall` and `findtext` over
  child-tag paths, as ElementTree evaluates them.
  - Each step selects the matching children of every context element, in
    document order.
  - `findtext` gives the first match's text, or "" when that element has no
    text, and the default only when nothing matches.
- `DmarcTransformation`: the Transformer.
- `CompressedExtractor`: the Extractor.
  - A class `Extractor` holds the state that lives across the invocations
    of one warm container: the global bucket name, the scratch directory
    listing and the uploads issued so far.

Where the code's behaviour differs from a plain reading of its intent, the
model follows the code:
- `human_result` is `findtext("auth_results/dkim/human_result")`. That is the
  first `human_result` under any DKIM element. When the first DKIM element has
  none, the value comes from a later one.
- An attachment without a file name raises (`"gzip" in None`) unless its
  content type contains "gzip".
- The Content-Disposition name is the text between the first and the second
  `=`, so trailing parameters stay in it. The `.gz` suffix is never checked.
- The upload sweep covers the whole scratch directory, including files left
  by earlier invocations of a warm container. It also runs when the
  attachment was not recognized.
- In the gzip branch, the target file is created before decompression. A
  payload that does not decompress therefore leaves its name in the scratch
  directory, and a later sweep uploads it.
- A well-formed report with no `record` elements still stores an object,
  an empty one.
- The two-parts gate counts what `get_payload()` returns. For a single-part
  message that is the body text, so a body of exactly two characters passes
  the gate. The "attachment" is then a one-character string, which has no
  content type, and the invocation raises (`NotAPart`).

## Model

| member | source | states |
|---|---|---|
| ElementTree.FindAll | functions/dmarc-transformation.py:61 | `e.findall(path)`: each path step selects, for every context element in turn, its children with the step's tag; its properties are stated by FindAllChild and FindAllSplitsPath |
| ElementTree.FindText | functions/dmarc-transformation.py:56-57 | `e.findtext(path, default)`: the text of the first match ("" when it has no text), or the default when nothing matches; its properties are stated by FindTextSplitsPath and FindTextDefault |
| ElementTree.FindAllChild | functions/dmarc-transformation.py:61 | `findall("record")` is exactly the direct `record` children of the root, in document order |
| ElementTree.MatchingMembers | functions/dmarc-transformation.py:61 | the children selected by a tag are exactly the children with that tag, and no more than there are children |
| ElementTree.FindAllSplitsPath | functions/dmarc-transformation.py:86 | a path `p/q` finds, for each match of `p` in document order, its matches of `q`, concatenated |
| ElementTree.FindAllEachEmpty | functions/dmarc-transformation.py:86 | that concatenation is empty exactly when no match of `p` has a match of `q` |
| ElementTree.FindAllEachSkip | functions/dmarc-transformation.py:79 | `p`-matches without a `q`-match contribute nothing, so the matches of `p/q` start with those of the first `p`-match that has any |
| ElementTree.FindTextSplitsPath | functions/dmarc-transformation.py:79 | `findtext` on `p/q` is the `findtext` of `q` under the first `p`-match that has a `q`-match, whether that is the first `p`-match or a later one |
| ElementTree.FindTextDefault | functions/dmarc-transformation.py:79 | `findtext` on `p/q` is the default when no `p`-match has a `q`-match, and in particular when `p` matches nothing |
| Strings.Contains | functions/dmarc-transformation.py:21 | `w in s`: a scan for `w` from each position; ContainsIff states what it finds |
| Strings.ToLower | functions/dmarc-transformation.py:21 | `s.lower()` on a byte string: only `A`-`Z` change; ContainsLowerIff states its effect on searching |
| Strings.ContainsIff | functions/dmarc-transformation.py:21 | the substring scan finds `w` exactly when `w` occurs at some index |
| Strings.ContainsLowerIff | functions/dmarc-transformation.py:21 | searching the lower-cased text for a lower-case word is searching the text for that word in any letter case |
| Strings.EndsWith | functions/dmarc-compressed-extractor.py:95 | `s.endswith(t)`: `t` is the last `|t|` characters of `s`; SweepCounts and SweepKeys use it as the `.xml` filter |
| Strings.SuffixContained | functions/dmarc-compressed-extractor.py:73-83 | a string containing `u + v` contains `v` |
| Strings.IndexOf | functions/dmarc-compressed-extractor.py:74 | the result is absent exactly when `c` does not occur; otherwise it is the position of the first `c` |
| Strings.LastIndexOf | functions/dmarc-transformation.py:16 | the result is absent exactly when `c` does not occur; otherwise it is the position of the last `c` |
| Strings.Split | functions/dmarc-compressed-extractor.py:74 | `s.split(c)`: the pieces between the occurrences of `c`, never an empty list; SplitPieces, SplitCount, JoinSplit and SplitJoin state the rest |
| Strings.SplitPieces | functions/dmarc-compressed-extractor.py:74 | `split` gives one piece exactly when the separator is absent, and no piece contains the separator |
| Strings.SplitCount | functions/dmarc-compressed-extractor.py:74 | `split` gives one piece more than there are separators |
| Strings.JoinSplit | functions/dmarc-compressed-extractor.py:74 | joining the pieces of `split` with the separator gives back the string |
| Strings.SplitJoin | functions/dmarc-compressed-extractor.py:74 | splitting a join of separator-free pieces gives back the pieces |
| Strings.LastPiece | functions/dmarc-transformation.py:16 | `s.split(c)[-1]`: the longest end of `s` without `c`; it never contains `c`, and LastPieceOfSplit ties it to `split` |
| Strings.LastPieceOfSplit | functions/dmarc-transformation.py:16 | the separator-free end of a string is the last element of its `split` |
| Strings.LastPieceAfter | functions/dmarc-transformation.py:16 | nothing before a separator changes the last piece |
| Strings.RemoveAll | functions/dmarc-compressed-extractor.py:75 | `s.replace(c, '')`: the result never contains `c`; RemoveAllKeeps states that nothing else is removed |
| Strings.RemoveAllKeeps | functions/dmarc-compressed-extractor.py:75 | `replace(c, '')` removes exactly the `c`s and leaves a string without `c` unchanged |
| Strings.RemoveAllAround | functions/dmarc-compressed-extractor.py:75 | removing the quotes around a quote-free name gives the name |
| DmarcTransformation.DkimDict | functions/dmarc-transformation.py:87-90 | every DKIM dictionary has exactly the keys dkim_domain, dkim_result and dkim_selector |
| DmarcTransformation.RecordDict | functions/dmarc-transformation.py:62-92 | every record dictionary has exactly the 18 keys, whatever the XML held; `dkim` is a list of one DKIM dictionary per DKIM sub-record |
| DmarcTransformation.DkimOf | functions/dmarc-transformation.py:87-90 | the DKIM sub-record of one `auth_results/dkim` element: the `findtext` of `domain`, `result` and `selector`, each defaulting to "none"; DkimFieldsDefault states the defaults |
| DmarcTransformation.RecordWith | functions/dmarc-transformation.py:62-82 | the record dictionary of one `record` element: the four report-wide values and the 13 scalar `findtext` lookups, each defaulting to "none", plus a DKIM list; MissingPathsAreNone and MatchedPathsGiveFirstText state the lookups |
| DmarcTransformation.RecordOf | functions/dmarc-transformation.py:62-92 | the record of one `record` element, with the DKIM list built from its `auth_results/dkim` elements; DkimListInDocumentOrder states that list |
| DmarcTransformation.Flatten | functions/dmarc-transformation.py:52-94 | the records of a well-formed report, with the org name and report id looked up once; FlattenShape states its shape |
| DmarcTransformation.RecordsOfAt | functions/dmarc-transformation.py:60-93 | the record list has one entry per element, and entry `i` is built from element `i` |
| DmarcTransformation.FlattenShape | functions/dmarc-transformation.py:55-93 | one record per direct `record` child of the root, in document order; all records share the date, org_name and report_id computed once, and file_name is the argument |
| DmarcTransformation.ParseDmarcXmlToList | functions/dmarc-transformation.py:34-94 | malformed XML ends in the clean stop; otherwise the result is the flattened record list |
| DmarcTransformation.BuildRecords | functions/dmarc-transformation.py:60-93 | the loop appends, in order, the record of each `record` element |
| DmarcTransformation.BuildRecord | functions/dmarc-transformation.py:62-92 | the loop body builds the record of its `record` element |
| DmarcTransformation.BuildDkimResults | functions/dmarc-transformation.py:85-91 | the inner loop appends, in order, the DKIM sub-record of each DKIM element |
| DmarcTransformation.MissingPathsAreNone | functions/dmarc-transformation.py:70-82 | each scalar field whose path matches nothing is "none" |
| DmarcTransformation.MatchedPathsGiveFirstText | functions/dmarc-transformation.py:70-82 | each scalar field whose path matches is the text of the first match, "" when that element has no text |
| DmarcTransformation.DkimFieldsDefault | functions/dmarc-transformation.py:88-90 | a DKIM field is "none" when the DKIM element has no child with that tag |
| DmarcTransformation.DkimListInDocumentOrder | functions/dmarc-transformation.py:85-92 | the `dkim` list has one entry per `dkim` child of each `auth_results` child, in document order, and is empty exactly when there is none |
| DmarcTransformation.HumanResultFromFirstDkimHavingOne | functions/dmarc-transformation.py:79 | `human_result` is the text of the `human_result` child of the first DKIM element that has one, whether that is the first DKIM element or a later one |
| DmarcTransformation.HumanResultDefault | functions/dmarc-transformation.py:79 | `human_result` is "none" when no DKIM element has a `human_result` child, and in particular when there is no DKIM element |
| DmarcTransformation.InjectionSuspected | functions/dmarc-transformation.py:21 | the guard: the lower-cased content contains "entity" or "system"; InjectionSuspectedIgnoresCase states it without lower-casing |
| DmarcTransformation.InjectionSuspectedIgnoresCase | functions/dmarc-transformation.py:21 | the guard trips exactly when "entity" or "system" occurs in any letter case |
| DmarcTransformation.AnyCaseTrips | functions/dmarc-transformation.py:21-23 | any spelling of either word, anywhere in the content, trips the guard |
| DmarcTransformation.StripExtension | functions/dmarc-transformation.py:16 | `key.rsplit('.', 1)[0]`: a prefix of the key; the key itself when it has no `.`, otherwise everything before its last `.` |
| DmarcTransformation.BaseName | functions/dmarc-transformation.py:16 | the base name contains no `/` |
| DmarcTransformation.BaseNameOfKey | functions/dmarc-transformation.py:16 | the base name of `dir/name.ext` is `name`: the last extension and the directory are dropped |
| DmarcTransformation.Dump | functions/dmarc-transformation.py:102 | `json.dumps(record)`: the JSON text of the record's dictionary, whose keys RecordDict states |
| DmarcTransformation.NdJson | functions/dmarc-transformation.py:100-103 | the buffer written to `/tmp/dmarc.json`: each record's JSON text followed by a newline; NdJsonLines states how it reads back |
| DmarcTransformation.NdJsonAppend | functions/dmarc-transformation.py:101-102 | writing one more record appends its JSON text and a newline to the buffer |
| DmarcTransformation.NdJsonLines | functions/dmarc-transformation.py:101-102 | read back line by line, the buffer is each record's JSON in order, each terminated by a newline |
| DmarcTransformation.UploadDmarcJson | functions/dmarc-transformation.py:97-107 | the upload goes to the output bucket under `filename.json` and holds one newline-terminated JSON line per record |
| DmarcTransformation.LambdaHandler | functions/dmarc-transformation.py:13-31 | suspected injection is rejected before parsing; malformed XML stops cleanly with nothing stored; otherwise the records are stored under the base name plus `.json` |
| DmarcTransformation.EmptyReportStoresEmptyObject | functions/dmarc-transformation.py:60-61 | a well-formed report without `record` children yields an empty object body |
| CompressedExtractor.PayloadLength | functions/dmarc-compressed-extractor.py:40 | `len(msg.get_payload())`: the number of parts of a multipart message, or the number of characters of a single-part body; Handle and PartGate state the gate built on it |
| CompressedExtractor.GzipIndicated | functions/dmarc-compressed-extractor.py:73 | `"gzip" in content_type or "gzip" in file_name`; Classify states when it raises and GzipIndicatesZip relates it to the zip test |
| CompressedExtractor.ZipIndicated | functions/dmarc-compressed-extractor.py:83 | `"zip" in content_type or "zip" in file_name`, reached only when the gzip test fails |
| CompressedExtractor.GzipIndicatesZip | functions/dmarc-compressed-extractor.py:73-83 | every attachment that passes the gzip test also passes the zip test |
| CompressedExtractor.Classify | functions/dmarc-compressed-extractor.py:73-89 | gzip exactly when either string mentions "gzip"; zip exactly when only "zip" is mentioned; unrecognized exactly when neither is; a raise exactly when the file name is missing and the content type has no "gzip" |
| CompressedExtractor.GzipBeforeZip | functions/dmarc-compressed-extractor.py:73-83 | a gzip-indicated attachment takes the gzip branch, although it also passes the zip test |
| CompressedExtractor.DispositionFilename | functions/dmarc-compressed-extractor.py:74-75 | a missing header raises; a header without `=` raises; a name, when there is one, has no quote and no `=` |
| CompressedExtractor.DispositionAfterEquals | functions/dmarc-compressed-extractor.py:74-75 | with one `=`, the name is what follows it with the quotes removed |
| CompressedExtractor.DispositionSecondSegment | functions/dmarc-compressed-extractor.py:74-75 | with several `=`, the name is the segment between the first two, not the last |
| CompressedExtractor.DispositionQuotedName | functions/dmarc-compressed-extractor.py:74-75 | round trip: the value of a `filename="n"` parameter is the name `n` itself, for any name without a quote or `=` |
| CompressedExtractor.XmlName | functions/dmarc-compressed-extractor.py:79 | the XML name is three characters shorter than the file name, or empty for a shorter file name |
| CompressedExtractor.XmlNameDropsAnySuffix | functions/dmarc-compressed-extractor.py:77-79 | any three final characters are dropped: the `.gz` suffix is never checked |
| CompressedExtractor.ReportXmlGz | functions/dmarc-compressed-extractor.py:79 | `report.xml.gz` becomes `report.xml`, an `.xml` name |
| CompressedExtractor.Extract | functions/dmarc-compressed-extractor.py:67-89 | `extract_attachment`: the names written into the scratch directory and the exception raised, per branch; GzipWritesOneFile, ZipWritesEveryMember and UnrecognizedWritesNothing state each branch |
| CompressedExtractor.GzipWritesOneFile | functions/dmarc-compressed-extractor.py:73-80 | the gzip branch writes at most one file, exactly one when the header gives a name longer than three characters; when it writes a file, it raises exactly when decompression fails; when it writes none, it raises, with the failure of the header or the empty-name failure |
| CompressedExtractor.GzipExtractsName | functions/dmarc-compressed-extractor.py:73-80 | a gzip attachment with `filename="n.gz"` writes exactly `n` |
| CompressedExtractor.ZipWritesEveryMember | functions/dmarc-compressed-extractor.py:83-86 | the zip branch writes every archive member whatever its extension, or raises when the payload is not an archive |
| CompressedExtractor.UnrecognizedWritesNothing | functions/dmarc-compressed-extractor.py:88-89 | an attachment passing neither test writes nothing and raises nothing |
| CompressedExtractor.AddName | functions/dmarc-compressed-extractor.py:80 | writing a file keeps the listing free of repeats and adds exactly its name |
| CompressedExtractor.AddNames | functions/dmarc-compressed-extractor.py:84-86 | writing several files keeps the listing free of repeats and adds exactly their names |
| CompressedExtractor.Sweep | functions/dmarc-compressed-extractor.py:92-97 | `upload_resulting_files_to_s3`: one upload under `xml/` per `.xml` name, in listing order; SweepCounts and SweepKeys state it |
| CompressedExtractor.SweepCounts | functions/dmarc-compressed-extractor.py:94-97 | each `.xml` name is uploaded under `xml/` plus its name as often as it is listed; any other name is never uploaded |
| CompressedExtractor.SweepKeys | functions/dmarc-compressed-extractor.py:94-97 | every upload goes to the given bucket under `xml/` followed by a listed `.xml` name |
| CompressedExtractor.SweepUploadsEachXmlOnce | functions/dmarc-compressed-extractor.py:94-97 | in a directory listing, each `.xml` file is uploaded exactly once |
| CompressedExtractor.Destination | functions/dmarc-compressed-extractor.py:27-29 | the bucket name after the fallback: the source bucket when the name is the empty string, otherwise the name; DestinationSticks states that it stays |
| CompressedExtractor.DestinationSticks | functions/dmarc-compressed-extractor.py:27-29 | with a non-empty source bucket the destination is never empty, and once the empty name has been replaced it stays for every later invocation |
| CompressedExtractor.Handle | functions/dmarc-compressed-extractor.py:21-64 | one invocation against a scratch listing: its outcome, the new listing and the uploads; PartGate, LeftoversUploadedAgain and OtherNamesNeverUploaded state its properties |
| CompressedExtractor.PartGate | functions/dmarc-compressed-extractor.py:40-58 | a message without exactly two parts returns 0 with nothing written or uploaded; with two parts only the second one matters |
| CompressedExtractor.LeftoversUploadedAgain | functions/dmarc-compressed-extractor.py:50-53 | after any successful extraction an `.xml` file already in the scratch directory is uploaded again |
| CompressedExtractor.OtherNamesNeverUploaded | functions/dmarc-compressed-extractor.py:94-97 | no invocation uploads a name that does not end in `.xml` |
| CompressedExtractor.GzipReportUploaded | functions/dmarc-compressed-extractor.py:40-97 | `filename="n.gz"` into an empty scratch directory returns 0, lists `n`, and uploads `xml/n` once when `n` ends in `.xml` |
| CompressedExtractor.SampleListing | functions/dmarc-compressed-extractor.py:84-86 | writing a.xml, b.xml and c.txt into an empty directory lists all three |
| CompressedExtractor.SampleSweep | functions/dmarc-compressed-extractor.py:94-97 | sweeping that listing uploads xml/a.xml and xml/b.xml, and not c.txt |
| CompressedExtractor.ZipMembersUploaded | functions/dmarc-compressed-extractor.py:83-97 | a zip of a.xml, b.xml and c.txt into an empty scratch directory uploads exactly xml/a.xml then xml/b.xml |
| CompressedExtractor.Extractor.constructor | functions/dmarc-compressed-extractor.py:15-17 | a new container has the configured bucket name (possibly the empty string), an empty scratch directory and no uploads |
| CompressedExtractor.Extractor.ExtractAttachment | functions/dmarc-compressed-extractor.py:67-89 | the scratch listing gains exactly the names the attachment yields, stays free of repeats, and the raised exception is the one the attachment causes |
| CompressedExtractor.Extractor.UploadResultingFiles | functions/dmarc-compressed-extractor.py:92-97 | the uploads issued are those of the sweep of the current listing, in listing order, and nothing else changes |
| CompressedExtractor.Extractor.LambdaHandler | functions/dmarc-compressed-extractor.py:21-64 | the bucket falls back to the source bucket only when the bucket name is the empty string; outcome, new listing and new uploads are those of one invocation against the old listing |

## Left out

- S3 is not modelled: the object read, `upload_file`, the `object_exists` waiter and the client globals. An upload is recorded as a bucket and key; the Transformer's temporary file `/tmp/dmarc.json` is not modelled.
- E-mail parsing (`message_from_string`) and transfer decoding (`get_payload(decode=True)`) are not modelled. The parsed message is an input, and so is a payload that decodes to nothing.
- gzip decompression and `ZipFile.extractall` are abstract: `gunzips` says whether a payload decompresses, and `unzip` gives an archive's member names or says the payload is no archive. Contents, partial extraction failures and overwritten contents are not modelled.
- The raw gzip payload file `/tmp/` + the header segment is written outside the scratch directory and is not modelled. Sub-directories are not modelled either: names containing `/`, as zip members or in the header, are treated as plain entries of the listing. As a consequence the model uploads a zip member `sub/a.xml` as `xml/sub/a.xml`, whereas `extractall` creates a directory `sub`, `os.listdir` lists only `sub`, and nothing is uploaded for that member. Likewise, for a Content-Disposition name containing `/` the code raises when it opens the file under `/tmp` or `/tmp/output/`, because that sub-directory does not exist; the model writes the name instead and uploads it when it ends in `.xml`.
- `os.listdir` order is unspecified; the scratch listing keeps the order of first writes. `os.mkdir` of the scratch directory leaves the listing as it is.
- XML byte parsing (`fromstring`) is a parameter that gives a tree or no tree; element attributes, tails and namespaces are not modelled. Paths are plain child-tag steps, the only form the code uses.
- `json.dumps` is a parameter `jsonOf` applied to each record's dictionary (`RecordDict`); key order, escaping and whitespace are not modelled.
- DmarcTransformation.NdJsonLines: applies only when no record's JSON contains a newline, as `json.dumps` output does not by default.
- The wall clock is not modelled: `date` is a parameter.
- The decoding of the object key (`unquote_plus`, UTF-8) is not modelled: the key is given decoded.
- Loading environment variables is not modelled: the configured bucket is a parameter. In both stages `os.environ['OUTPUT_BUCKET_NAME']` raises KeyError when the module loads if the variable is unset, so no handler ever runs; the model starts from a container whose variable is set, possibly to the empty string.
- Logging (`print`) and the re-raise after logging are not modelled: an exception is an outcome.
- Exceptions from S3 and the file system, other than those named in `Failure`, are not modelled.
- RFC 7489 report validation is not modelled: the code does none either, and reads whatever paths exist.
