/**
 * The Transformer stage: it rejects report text that looks like an entity
 * injection, flattens a DMARC aggregate report (RFC 7489, Appendix C) into
 * one record per `record` element, and stores the records as newline-delimited
 * JSON under the report's base name.
 *
 * Fetching the object, XML byte parsing (`fromstring`), the wall clock and
 * `json.dumps` are parameters: `fromString` yields None for text that is not
 * well-formed XML, `date` is the formatted processing time, and `jsonOf`
 * renders one record dictionary as a JSON object.
 */
module DmarcTransformation {

  import opened Wrappers
  import opened Strings
  import opened ElementTree
  import opened Sequences

  /** The value of every field whose path finds no element. */
  const Missing := "none"

  const OrgNamePath: Path := ["report_metadata", "org_name"]
  const ReportIdPath: Path := ["report_metadata", "report_id"]
  const RecordTag := "record"

  const SourceIpPath: Path := ["row", "source_ip"]
  const CountPath: Path := ["row", "count"]
  const DispositionPath: Path := ["row", "policy_evaluated", "disposition"]
  const PolicyDkimPath: Path := ["row", "policy_evaluated", "dkim"]
  const PolicySpfPath: Path := ["row", "policy_evaluated", "spf"]
  const TypePath: Path := ["row", "policy_evaluated", "reason", "type"]
  const HeaderFromPath: Path := ["identifiers", "header_from"]
  const EnvelopeFromPath: Path := ["identifiers", "envelope_from"]
  const EnvelopeToPath: Path := ["identifiers", "envelope_to"]
  const AuthResultsTag := "auth_results"
  const DkimTag := "dkim"
  const DkimPath: Path := [AuthResultsTag, DkimTag]
  const HumanResultTag := "human_result"
  const HumanResultPath: Path := [AuthResultsTag, DkimTag, HumanResultTag]
  const SpfDomainPath: Path := ["auth_results", "spf", "domain"]
  const SpfResultPath: Path := ["auth_results", "spf", "result"]
  const SpfScopePath: Path := ["auth_results", "spf", "scope"]

  /** One DKIM signature evaluation of a record. */
  datatype DkimResult = DkimResult(dkimDomain: string, dkimResult: string, dkimSelector: string)

  /** One flattened report record; `reasonType` is the field stored under the key "type". */
  datatype FlatRecord = FlatRecord(
    date: string, orgName: string, reportId: string, fileName: string,
    sourceIp: string, count: string, disposition: string,
    policyDkim: string, policySpf: string, reasonType: string,
    headerFrom: string, envelopeFrom: string, envelopeTo: string,
    humanResult: string, spfDomain: string, spfResult: string, spfScope: string,
    dkim: seq<DkimResult>)

  /** A value of the dictionary the source builds: a string, or the list of DKIM dictionaries. */
  datatype JsonValue = Text(s: string) | Objects(items: seq<map<string, string>>)

  const DkimKeys: set<string> := {"dkim_domain", "dkim_result", "dkim_selector"}

  const RecordKeys: set<string> := {
    "date", "org_name", "report_id", "file_name", "source_ip", "count",
    "disposition", "policy_dkim", "policy_spf", "type", "header_from",
    "envelope_from", "envelope_to", "human_result", "spf_domain",
    "spf_result", "spf_scope", "dkim"}

  /** The dictionary `dkim_dict`. */
  function DkimDict(d: DkimResult): (m: map<string, string>)
    ensures m.Keys == DkimKeys
  {
    map["dkim_domain" := d.dkimDomain, "dkim_result" := d.dkimResult, "dkim_selector" := d.dkimSelector]
  }

  /** The dictionary `record_dict`: always the same eighteen keys, whatever the report held. */
  function RecordDict(r: FlatRecord): (m: map<string, JsonValue>)
    ensures m.Keys == RecordKeys
    ensures m["dkim"].Objects? && |m["dkim"].items| == |r.dkim|
    ensures forall j :: 0 <= j < |r.dkim| ==> m["dkim"].items[j].Keys == DkimKeys
  {
    map[
      "date" := Text(r.date), "org_name" := Text(r.orgName),
      "report_id" := Text(r.reportId), "file_name" := Text(r.fileName),
      "source_ip" := Text(r.sourceIp), "count" := Text(r.count),
      "disposition" := Text(r.disposition), "policy_dkim" := Text(r.policyDkim),
      "policy_spf" := Text(r.policySpf), "type" := Text(r.reasonType),
      "header_from" := Text(r.headerFrom), "envelope_from" := Text(r.envelopeFrom),
      "envelope_to" := Text(r.envelopeTo), "human_result" := Text(r.humanResult),
      "spf_domain" := Text(r.spfDomain), "spf_result" := Text(r.spfResult),
      "spf_scope" := Text(r.spfScope),
      "dkim" := Objects(seq(|r.dkim|, j requires 0 <= j < |r.dkim| => DkimDict(r.dkim[j])))]
  }

  /** The DKIM sub-record built from one `auth_results/dkim` element. */
  function DkimOf(d: Element): DkimResult {
    DkimResult(FindText(d, ["domain"], Missing), FindText(d, ["result"], Missing), FindText(d, ["selector"], Missing))
  }

  /**
   * The `record_dict` of one `record` element: the report-wide values, the
   * scalar fields looked up in the element, and its `dkim_results` list.
   */
  function RecordWith(rec: Element, date: string, orgName: string, reportId: string, fileName: string,
                      dkimResults: seq<DkimResult>): FlatRecord {
    FlatRecord(
      date, orgName, reportId, fileName,
      FindText(rec, SourceIpPath, Missing), FindText(rec, CountPath, Missing),
      FindText(rec, DispositionPath, Missing), FindText(rec, PolicyDkimPath, Missing),
      FindText(rec, PolicySpfPath, Missing), FindText(rec, TypePath, Missing),
      FindText(rec, HeaderFromPath, Missing), FindText(rec, EnvelopeFromPath, Missing),
      FindText(rec, EnvelopeToPath, Missing), FindText(rec, HumanResultPath, Missing),
      FindText(rec, SpfDomainPath, Missing), FindText(rec, SpfResultPath, Missing),
      FindText(rec, SpfScopePath, Missing),
      dkimResults)
  }

  /** The flat record built from one `record` element and the report-wide values. */
  function RecordOf(rec: Element, date: string, orgName: string, reportId: string, fileName: string): FlatRecord {
    RecordWith(rec, date, orgName, reportId, fileName, MapSeq(DkimOf, FindAll(rec, DkimPath)))
  }

  /**
   * The records of a well-formed report: one per direct `record` child of the
   * root, in document order, all sharing the date, organisation, report id and
   * file name.
   */
  function RecordsOf(records: seq<Element>, date: string, orgName: string, reportId: string, fileName: string)
    : seq<FlatRecord>
  {
    MapSeq(rec => RecordOf(rec, date, orgName, reportId, fileName), records)
  }

  lemma RecordsOfAt(records: seq<Element>, date: string, orgName: string, reportId: string, fileName: string)
    ensures |RecordsOf(records, date, orgName, reportId, fileName)| == |records|
    ensures forall i :: 0 <= i < |records| ==>
      RecordsOf(records, date, orgName, reportId, fileName)[i] == RecordOf(records[i], date, orgName, reportId, fileName)
  {
    MapSeqAt(rec => RecordOf(rec, date, orgName, reportId, fileName), records);
  }

  lemma RecordsOfSnoc(records: seq<Element>, i: nat, date: string, orgName: string, reportId: string, fileName: string)
    requires i < |records|
    ensures RecordsOf(records[..i + 1], date, orgName, reportId, fileName) ==
      RecordsOf(records[..i], date, orgName, reportId, fileName) + [RecordOf(records[i], date, orgName, reportId, fileName)]
  {
    assert records[..i + 1][..i] == records[..i];
  }

  /** The records of a well-formed report. */
  function Flatten(root: Element, fileName: string, date: string): seq<FlatRecord> {
    RecordsOf(FindAll(root, [RecordTag]), date,
              FindText(root, OrgNamePath, Missing), FindText(root, ReportIdPath, Missing), fileName)
  }

  /**
   * A well-formed report gives one record per direct `record` child of the
   * root, in document order, and all of them carry the same date,
   * organisation, report id and file name.
   */
  lemma FlattenShape(root: Element, fileName: string, date: string)
    ensures var rs := Flatten(root, fileName, date);
      var records := Matching(root.children, RecordTag);
      && |rs| == |records|
      && (forall i :: 0 <= i < |rs| ==>
            rs[i] == RecordOf(records[i], date, FindText(root, OrgNamePath, Missing),
                              FindText(root, ReportIdPath, Missing), fileName))
      && (forall i :: 0 <= i < |rs| ==>
            && rs[i].date == date && rs[i].fileName == fileName
            && rs[i].orgName == FindText(root, OrgNamePath, Missing)
            && rs[i].reportId == FindText(root, ReportIdPath, Missing))
  {
    FindAllChild(root, RecordTag);
    RecordsOfAt(FindAll(root, [RecordTag]), date,
                FindText(root, OrgNamePath, Missing), FindText(root, ReportIdPath, Missing), fileName);
  }

  /** What `parse_dmarc_xml_to_list` ends with: the records, or the clean stop on malformed XML. */
  datatype Parsed = Records(records: seq<FlatRecord>) | NotWellFormed

  /**
   * `parse_dmarc_xml_to_list`: `tree` is what parsing the report text gave
   * (None when it was not well-formed) and `date` the processing time.
   */
  method ParseDmarcXmlToList(tree: Option<Element>, fileName: string, date: string) returns (out: Parsed)
    ensures tree.None? ==> out == NotWellFormed
    ensures tree.Some? ==> out == Records(Flatten(tree.value, fileName, date))
  {
    if tree.None? {
      return NotWellFormed;
    }
    var root := tree.value;
    var orgName := FindText(root, OrgNamePath, Missing);
    var reportId := FindText(root, ReportIdPath, Missing);

    var recordsList := BuildRecords(FindAll(root, [RecordTag]), date, orgName, reportId, fileName);
    out := Records(recordsList);
  }

  /** The loop of `parse_dmarc_xml_to_list` over the `record` children: one record appended per element. */
  method BuildRecords(records: seq<Element>, date: string, orgName: string, reportId: string, fileName: string)
    returns (recordsList: seq<FlatRecord>)
    ensures recordsList == RecordsOf(records, date, orgName, reportId, fileName)
  {
    recordsList := [];
    for i := 0 to |records|
      invariant recordsList == RecordsOf(records[..i], date, orgName, reportId, fileName)
    {
      RecordsOfSnoc(records, i, date, orgName, reportId, fileName);
      var recordDict := BuildRecord(records[i], date, orgName, reportId, fileName);
      recordsList := recordsList + [recordDict];
    }
    assert records[..|records|] == records;
  }

  /** The body of the loop over `record` elements: one `record_dict` and its `dkim_results`. */
  method BuildRecord(record: Element, date: string, orgName: string, reportId: string, fileName: string)
    returns (recordDict: FlatRecord)
    ensures recordDict == RecordOf(record, date, orgName, reportId, fileName)
  {
    var dkimResults := BuildDkimResults(FindAll(record, DkimPath));
    recordDict := RecordWith(record, date, orgName, reportId, fileName, dkimResults);
  }

  /** The inner loop of `parse_dmarc_xml_to_list`: one `dkim_dict` per DKIM element, appended in order. */
  method BuildDkimResults(dkims: seq<Element>) returns (dkimResults: seq<DkimResult>)
    ensures dkimResults == MapSeq(DkimOf, dkims)
  {
    dkimResults := [];
    for j := 0 to |dkims|
      invariant dkimResults == MapSeq(DkimOf, dkims[..j])
    {
      assert dkims[..j + 1][..j] == dkims[..j];
      var dkimDict := DkimOf(dkims[j]);
      dkimResults := dkimResults + [dkimDict];
    }
    assert dkims[..|dkims|] == dkims;
  }

  /** A scalar field whose path matches no element is "none". */
  lemma MissingPathsAreNone(rec: Element, date: string, orgName: string, reportId: string, fileName: string)
    ensures var r := RecordOf(rec, date, orgName, reportId, fileName);
      && (FindAll(rec, SourceIpPath) == [] ==> r.sourceIp == Missing)
      && (FindAll(rec, CountPath) == [] ==> r.count == Missing)
      && (FindAll(rec, DispositionPath) == [] ==> r.disposition == Missing)
      && (FindAll(rec, PolicyDkimPath) == [] ==> r.policyDkim == Missing)
      && (FindAll(rec, PolicySpfPath) == [] ==> r.policySpf == Missing)
      && (FindAll(rec, TypePath) == [] ==> r.reasonType == Missing)
      && (FindAll(rec, HeaderFromPath) == [] ==> r.headerFrom == Missing)
      && (FindAll(rec, EnvelopeFromPath) == [] ==> r.envelopeFrom == Missing)
      && (FindAll(rec, EnvelopeToPath) == [] ==> r.envelopeTo == Missing)
      && (FindAll(rec, HumanResultPath) == [] ==> r.humanResult == Missing)
      && (FindAll(rec, SpfDomainPath) == [] ==> r.spfDomain == Missing)
      && (FindAll(rec, SpfResultPath) == [] ==> r.spfResult == Missing)
      && (FindAll(rec, SpfScopePath) == [] ==> r.spfScope == Missing)
  {
  }

  /** A scalar field whose path matches is the text of the first match ("" when that element has no text). */
  lemma MatchedPathsGiveFirstText(rec: Element, date: string, orgName: string, reportId: string, fileName: string)
    ensures var r := RecordOf(rec, date, orgName, reportId, fileName);
      && (FindAll(rec, SourceIpPath) != [] ==> r.sourceIp == TextOf(FindAll(rec, SourceIpPath)[0]))
      && (FindAll(rec, CountPath) != [] ==> r.count == TextOf(FindAll(rec, CountPath)[0]))
      && (FindAll(rec, DispositionPath) != [] ==> r.disposition == TextOf(FindAll(rec, DispositionPath)[0]))
      && (FindAll(rec, PolicyDkimPath) != [] ==> r.policyDkim == TextOf(FindAll(rec, PolicyDkimPath)[0]))
      && (FindAll(rec, PolicySpfPath) != [] ==> r.policySpf == TextOf(FindAll(rec, PolicySpfPath)[0]))
      && (FindAll(rec, TypePath) != [] ==> r.reasonType == TextOf(FindAll(rec, TypePath)[0]))
      && (FindAll(rec, HeaderFromPath) != [] ==> r.headerFrom == TextOf(FindAll(rec, HeaderFromPath)[0]))
      && (FindAll(rec, EnvelopeFromPath) != [] ==> r.envelopeFrom == TextOf(FindAll(rec, EnvelopeFromPath)[0]))
      && (FindAll(rec, EnvelopeToPath) != [] ==> r.envelopeTo == TextOf(FindAll(rec, EnvelopeToPath)[0]))
      && (FindAll(rec, HumanResultPath) != [] ==> r.humanResult == TextOf(FindAll(rec, HumanResultPath)[0]))
      && (FindAll(rec, SpfDomainPath) != [] ==> r.spfDomain == TextOf(FindAll(rec, SpfDomainPath)[0]))
      && (FindAll(rec, SpfResultPath) != [] ==> r.spfResult == TextOf(FindAll(rec, SpfResultPath)[0]))
      && (FindAll(rec, SpfScopePath) != [] ==> r.spfScope == TextOf(FindAll(rec, SpfScopePath)[0]))
  {
  }

  /** Each DKIM field is the text of the first such child, or "none" when there is none. */
  lemma DkimFieldsDefault(d: Element)
    ensures FindAll(d, ["domain"]) == [] <==> Matching(d.children, "domain") == []
    ensures FindAll(d, ["result"]) == [] <==> Matching(d.children, "result") == []
    ensures FindAll(d, ["selector"]) == [] <==> Matching(d.children, "selector") == []
    ensures Matching(d.children, "domain") == [] ==> DkimOf(d).dkimDomain == Missing
    ensures Matching(d.children, "result") == [] ==> DkimOf(d).dkimResult == Missing
    ensures Matching(d.children, "selector") == [] ==> DkimOf(d).dkimSelector == Missing
  {
    FindAllChild(d, "domain");
    FindAllChild(d, "result");
    FindAllChild(d, "selector");
  }

  /**
   * The `dkim` list has one entry per `dkim` child of each `auth_results`
   * child of the record, in document order, and is empty when there is none.
   */
  lemma DkimListInDocumentOrder(rec: Element, date: string, orgName: string, reportId: string, fileName: string)
    ensures var r := RecordOf(rec, date, orgName, reportId, fileName);
      var dkims := FindAllEach(Matching(rec.children, AuthResultsTag), [DkimTag]);
      && |r.dkim| == |dkims|
      && (forall j :: 0 <= j < |dkims| ==> r.dkim[j] == DkimOf(dkims[j]))
      && (r.dkim == [] <==> forall k :: 0 <= k < |Matching(rec.children, AuthResultsTag)| ==>
                              FindAll(Matching(rec.children, AuthResultsTag)[k], [DkimTag]) == [])
  {
    FindAllSplitsPath(rec, [AuthResultsTag], [DkimTag]);
    assert [AuthResultsTag] + [DkimTag] == DkimPath;
    FindAllChild(rec, AuthResultsTag);
    FindAllEachEmpty(Matching(rec.children, AuthResultsTag), [DkimTag]);
    MapSeqAt(DkimOf, FindAll(rec, DkimPath));
  }

  /**
   * `human_result` comes from the first `auth_results/dkim` element that has a
   * `human_result` child, whatever the later ones hold: the first one when it
   * has one, otherwise a later one.
   */
  lemma HumanResultFromFirstDkimHavingOne(rec: Element, date: string, orgName: string, reportId: string,
                                          fileName: string, k: nat)
    requires k < |FindAll(rec, DkimPath)|
    requires Matching(FindAll(rec, DkimPath)[k].children, HumanResultTag) != []
    requires forall j :: 0 <= j < k ==> Matching(FindAll(rec, DkimPath)[j].children, HumanResultTag) == []
    ensures RecordOf(rec, date, orgName, reportId, fileName).humanResult ==
      TextOf(Matching(FindAll(rec, DkimPath)[k].children, HumanResultTag)[0])
  {
    var dkims := FindAll(rec, DkimPath);
    assert HumanResultPath == DkimPath + [HumanResultTag];
    forall j | 0 <= j <= k
      ensures FindAll(dkims[j], [HumanResultTag]) == Matching(dkims[j].children, HumanResultTag)
    {
      FindAllChild(dkims[j], HumanResultTag);
    }
    FindTextSplitsPath(rec, DkimPath, [HumanResultTag], Missing, k);
  }

  /** `human_result` is "none" when no DKIM element has a `human_result` child, in particular when there is no DKIM element. */
  lemma HumanResultDefault(rec: Element, date: string, orgName: string, reportId: string, fileName: string)
    ensures var dkims := FindAll(rec, DkimPath);
      (forall k :: 0 <= k < |dkims| ==> Matching(dkims[k].children, HumanResultTag) == []) ==>
        RecordOf(rec, date, orgName, reportId, fileName).humanResult == Missing
  {
    var dkims := FindAll(rec, DkimPath);
    assert HumanResultPath == DkimPath + [HumanResultTag];
    forall j | 0 <= j < |dkims|
      ensures FindAll(dkims[j], [HumanResultTag]) == Matching(dkims[j].children, HumanResultTag)
    {
      FindAllChild(dkims[j], HumanResultTag);
    }
    FindTextDefault(rec, DkimPath, [HumanResultTag], Missing);
  }

  /** The injection guard: the lower-cased content contains "entity" or "system". */
  predicate InjectionSuspected(content: string) {
    var low := ToLower(content);
    Contains(low, "entity") || Contains(low, "system")
  }

  /** The guard trips exactly when "entity" or "system" occurs in the content in any letter case. */
  lemma InjectionSuspectedIgnoresCase(content: string)
    ensures InjectionSuspected(content) <==>
      exists i :: OccursIgnoringCaseAt(content, "entity", i) || OccursIgnoringCaseAt(content, "system", i)
  {
    ContainsLowerIff(content, "entity");
    ContainsLowerIff(content, "system");
  }

  /** Any spelling of "system" or "entity" anywhere in the content, such as "System", trips the guard. */
  lemma AnyCaseTrips(before: string, word: string, after: string)
    requires ToLower(word) == "system" || ToLower(word) == "entity"
    ensures InjectionSuspected(before + word + after)
  {
    var s := before + word + after;
    var w := ToLower(word);
    forall k | 0 <= k < |w| ensures LowerChar(s[|before| + k]) == w[k] {
      assert s[|before| + k] == word[k];
    }
    assert OccursIgnoringCaseAt(s, w, |before|);
    InjectionSuspectedIgnoresCase(s);
  }

  /** `key.rsplit('.', 1)[0]`: the key without its last `.`-extension. */
  function StripExtension(key: string): (stem: string)
    ensures stem <= key
    ensures '.' !in key ==> stem == key
    ensures '.' in key ==> |stem| < |key| && key[|stem|] == '.' && '.' !in key[|stem| + 1..]
  {
    match LastIndexOf(key, '.')
    case None => key
    case Some(i) => key[..i]
  }

  /** `key.rsplit('.', 1)[0].split('/')[-1]`: the name the JSON object is stored under. */
  function BaseName(key: string): (name: string)
    ensures '/' !in name
  {
    LastPiece(StripExtension(key), '/')
  }

  /**
   * The base name of `dir + name + "." + ext` is `name` when `name` has no `/`,
   * `ext` has no `.` and `dir` is empty or ends in `/`. `ext` may contain `/`:
   * the base name of "a/b.c/d" is "b".
   */
  lemma BaseNameOfKey(dir: string, name: string, ext: string)
    requires dir == [] || dir[|dir| - 1] == '/'
    requires '/' !in name && '.' !in ext
    ensures BaseName(dir + name + "." + ext) == name
  {
    var key := dir + name + "." + ext;
    assert key == (dir + name) + ['.'] + ext;
    LastIndexOfAppend(dir + name, '.', ext);
    assert StripExtension(key) == dir + name;
    LastPieceFree(name, '/');
    if dir == [] {
      assert dir + name == name;
    } else {
      var d' := dir[..|dir| - 1];
      assert dir + name == d' + ['/'] + name;
      LastPieceAfter(d', '/', name);
    }
  }

  /** `json.dumps(record)`: the JSON text of a record's dictionary. */
  function Dump(jsonOf: map<string, JsonValue> -> string): FlatRecord -> string {
    r => jsonOf(RecordDict(r))
  }

  /** The buffer of `upload_dmarc_json_to_s3`: each record's JSON text followed by a newline. */
  function NdJson<R>(records: seq<R>, dump: R -> string): string {
    if records == [] then "" else dump(records[0]) + "\n" + NdJson(records[1..], dump)
  }

  lemma {:induction false} NdJsonAppend<R>(records: seq<R>, r: R, dump: R -> string)
    ensures NdJson(records + [r], dump) == NdJson(records, dump) + dump(r) + "\n"
  {
    if records != [] {
      assert (records + [r])[1..] == records[1..] + [r];
      NdJsonAppend(records[1..], r, dump);
    }
  }

  /**
   * Read back line by line, the buffer gives each record's JSON text in order,
   * followed by the empty piece after the final newline.
   */
  lemma {:induction false} NdJsonLines<R>(records: seq<R>, dump: R -> string)
    requires forall k :: 0 <= k < |records| ==> '\n' !in dump(records[k])
    ensures Split(NdJson(records, dump), '\n') == MapSeq(dump, records) + [""]
  {
    if records == [] {
      assert Split("", '\n') == [""];
    } else {
      NdJsonLines(records[1..], dump);
      MapSeqCons(dump, records);
      SplitCons(dump(records[0]), '\n', NdJson(records[1..], dump));
    }
  }

  /** The object the Transformer stores. */
  datatype JsonUpload = JsonUpload(bucket: string, key: string, body: string)

  /** `upload_dmarc_json_to_s3`: writes one line per record and stores the buffer under `fileName.json`. */
  method UploadDmarcJson(records: seq<FlatRecord>, fileName: string, outputBucket: string, jsonOf: map<string, JsonValue> -> string)
    returns (u: JsonUpload)
    ensures u.bucket == outputBucket && u.key == fileName + ".json"
    ensures u.body == NdJson(records, Dump(jsonOf))
  {
    var buffer := "";
    for i := 0 to |records|
      invariant buffer == NdJson(records[..i], Dump(jsonOf))
    {
      assert records[..i + 1] == records[..i] + [records[i]];
      NdJsonAppend(records[..i], records[i], Dump(jsonOf));
      buffer := buffer + jsonOf(RecordDict(records[i])) + "\n";
    }
    assert records[..|records|] == records;
    u := JsonUpload(outputBucket, fileName + ".json", buffer);
  }

  /** How one Transformer invocation ends. */
  datatype Invocation =
    | InjectionRejected        // the guard raised: a loud failure
    | CleanStop                // malformed XML: the process exits with status 0, nothing stored
    | Stored(upload: JsonUpload)

  /**
   * `lambda_handler` of the Transformer for an object `key` whose text is
   * `content`; `outputBucket` is the configured destination.
   */
  method LambdaHandler(outputBucket: string, key: string, content: string,
                       fromString: string -> Option<Element>, date: string, jsonOf: map<string, JsonValue> -> string)
    returns (r: Invocation)
    ensures InjectionSuspected(content) ==> r == InjectionRejected
    ensures !InjectionSuspected(content) && fromString(content).None? ==> r == CleanStop
    ensures !InjectionSuspected(content) && fromString(content).Some? ==>
      var name := BaseName(key);
      r == Stored(JsonUpload(outputBucket, name + ".json", NdJson(Flatten(fromString(content).value, name, date), Dump(jsonOf))))
  {
    var fileName := BaseName(key);
    if InjectionSuspected(content) {
      return InjectionRejected;
    }
    var parsed := ParseDmarcXmlToList(fromString(content), fileName, date);
    match parsed
    case NotWellFormed =>
      r := CleanStop;
    case Records(recordList) =>
      var upload := UploadDmarcJson(recordList, fileName, outputBucket, jsonOf);
      r := Stored(upload);
  }

  /** A well-formed report without `record` children still stores an object, an empty one. */
  lemma EmptyReportStoresEmptyObject(root: Element, fileName: string, date: string, jsonOf: map<string, JsonValue> -> string)
    requires Matching(root.children, RecordTag) == []
    ensures NdJson(Flatten(root, fileName, date), Dump(jsonOf)) == ""
  {
    FlattenShape(root, fileName, date);
  }
}
