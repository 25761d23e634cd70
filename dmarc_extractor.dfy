/**
 * The Extractor stage: it takes a DMARC report e-mail, writes the report
 * carried by its attachment into the scratch directory /tmp/output/, and
 * uploads every `.xml` file of that directory to the output bucket under the
 * prefix `xml/`.
 *
 * Parsing the e-mail (MIME structure, base64 and quoted-printable decoding),
 * gzip decompression, zip extraction and S3 are outside the model: the
 * message arrives parsed, `gunzips(payload)` says whether the payload is a
 * gzip stream that decompresses, and `unzip(payload)` gives the member names
 * of a zip archive, or None when the payload is not one.
 */
module CompressedExtractor {

  import opened Wrappers
  import opened Strings
  import opened Sequences

  const GzipMark := "gzip"
  const ZipMark := "zip"
  const XmlSuffix := ".xml"
  /** `OUTPUT_BUCKET_PREFIX` */
  const OutputPrefix := "xml/"

  /** A MIME part: `get_content_type()`, `get_filename()`, its Content-Disposition header and its decoded body. */
  datatype Attachment = Attachment(
    contentType: string, filename: Option<string>, disposition: Option<string>, payload: seq<bv8>)

  /** `msg.get_payload()`: the parts of a multipart message, or the body text of a single-part one. */
  datatype Payload = Parts(parts: seq<Attachment>) | Body(body: string)

  /** `len(msg.get_payload())` */
  function PayloadLength(p: Payload): nat {
    match p
    case Parts(ps) => |ps|
    case Body(b) => |b|
  }

  /** The exceptions an invocation can end with. */
  datatype Failure =
    | NotAPart          // item 1 of a single-part body is a character, which has no content type
    | NoFilename        // `"gzip" in None`: no "gzip" in the content type and the part has no file name
    | NoDisposition     // the part has no Content-Disposition header
    | NoEqualsSign      // the header has no '=', so item 1 of its split does not exist
    | EmptyName         // the name to write is empty, so the path opened is a directory
    | NotGzip           // the payload does not decompress
    | NotZip            // the payload is not a zip archive

  /** `"gzip" in content_type or "gzip" in file_name`, where a missing file name has no substring. */
  predicate GzipIndicated(a: Attachment) {
    Contains(a.contentType, GzipMark) || (a.filename.Some? && Contains(a.filename.value, GzipMark))
  }

  /** `"zip" in content_type or "zip" in file_name`, where a missing file name has no substring. */
  predicate ZipIndicated(a: Attachment) {
    Contains(a.contentType, ZipMark) || (a.filename.Some? && Contains(a.filename.value, ZipMark))
  }

  /** Everything that mentions "gzip" also mentions "zip". */
  lemma GzipIndicatesZip(a: Attachment)
    ensures GzipIndicated(a) ==> ZipIndicated(a)
  {
    assert GzipMark == "g" + ZipMark;
    if Contains(a.contentType, GzipMark) {
      SuffixContained(a.contentType, "g", ZipMark);
    } else if a.filename.Some? && Contains(a.filename.value, GzipMark) {
      SuffixContained(a.filename.value, "g", ZipMark);
    }
  }

  /** The branch `extract_attachment` takes. */
  datatype Kind = Gzip | Zip | Unrecognized

  /**
   * The two tests of `extract_attachment`, gzip first. Python evaluates `"gzip"
   * in file_name` only when the content type has no "gzip", and raises when the
   * file name is then missing.
   */
  function Classify(a: Attachment): (r: Result<Kind, Failure>)
    ensures r == Ok(Gzip) <==> GzipIndicated(a)
    ensures r == Ok(Zip) <==> a.filename.Some? && !GzipIndicated(a) && ZipIndicated(a)
    ensures r == Ok(Unrecognized) <==> a.filename.Some? && !ZipIndicated(a)
    ensures r.Err? <==> a.filename.None? && !Contains(a.contentType, GzipMark)
    ensures r.Err? ==> r.error == NoFilename
  {
    GzipIndicatesZip(a);
    if Contains(a.contentType, GzipMark) then Ok(Gzip)
    else if a.filename.None? then Err(NoFilename)
    else if Contains(a.filename.value, GzipMark) then Ok(Gzip)
    else if Contains(a.contentType, ZipMark) || Contains(a.filename.value, ZipMark) then Ok(Zip)
    else Ok(Unrecognized)
  }

  /** An attachment that mentions "gzip" takes the gzip branch, although the zip test would pass too. */
  lemma GzipBeforeZip(a: Attachment)
    requires GzipIndicated(a)
    ensures ZipIndicated(a) && Classify(a) == Ok(Gzip)
  {
    GzipIndicatesZip(a);
  }

  /** `string.split(disposition, '=')[1].replace('"', '')` */
  function DispositionFilename(disposition: Option<string>): (r: Result<string, Failure>)
    ensures disposition.None? ==> r == Err(NoDisposition)
    ensures disposition.Some? ==> (r == Err(NoEqualsSign) <==> '=' !in disposition.value)
    ensures r.Ok? ==> '"' !in r.value && '=' !in r.value
  {
    match disposition
    case None => Err(NoDisposition)
    case Some(d) =>
      var parts := Split(d, '=');
      SplitPieces(d, '=');
      if |parts| == 1 then Err(NoEqualsSign)
      else
        RemoveAllKeeps(parts[1], '"');
        Ok(RemoveAll(parts[1], '"'))
  }

  /** With a single '=' the name is everything after it, with every quote removed. */
  lemma DispositionAfterEquals(before: string, segment: string)
    requires '=' !in before && '=' !in segment
    ensures DispositionFilename(Some(before + "=" + segment)) == Ok(RemoveAll(segment, '"'))
  {
    var d := before + "=" + segment;
    assert d == before + ['='] + segment;
    SplitCons(before, '=', segment);
    assert Split(segment, '=') == [segment];
    assert Split(d, '=') == [before, segment];
  }

  /**
   * The name is the segment between the first and the second '=', not the
   * last one: parameters after a second '=' end up in the name.
   */
  lemma DispositionSecondSegment(before: string, segment: string, rest: string)
    requires '=' !in before && '=' !in segment
    ensures DispositionFilename(Some(before + "=" + segment + "=" + rest)) == Ok(RemoveAll(segment, '"'))
  {
    var d := before + "=" + segment + "=" + rest;
    assert d == before + ['='] + (segment + ['='] + rest);
    SplitCons(before, '=', segment + ['='] + rest);
    SplitCons(segment, '=', rest);
    assert Split(d, '=')[1] == segment;
  }

  /** `filename="n"` gives back the name `n` whenever `n` has no quote and no '='. */
  lemma DispositionQuotedName(before: string, n: string)
    requires '=' !in before && '=' !in n && '"' !in n
    ensures DispositionFilename(Some(before + "=\"" + n + "\"")) == Ok(n)
  {
    var quoted := ['"'] + n + ['"'];
    assert before + "=\"" + n + "\"" == before + "=" + quoted;
    assert '=' !in quoted;
    DispositionAfterEquals(before, quoted);
    RemoveAllAround(n, '"');
  }

  /** `fname[:-3]`: the name without its last three characters, empty for a shorter one. */
  function XmlName(fname: string): (x: string)
    ensures |x| == if |fname| < 3 then 0 else |fname| - 3
  {
    if |fname| < 3 then [] else fname[..|fname| - 3]
  }

  /** Any three final characters are dropped, whether or not they are ".gz". */
  lemma XmlNameDropsAnySuffix(name: string, ext: string)
    requires |ext| == 3
    ensures XmlName(name + ext) == name
  {
  }

  /** What `extract_attachment` does: the names it writes into the scratch directory, and the exception it raises, if any. */
  datatype Extraction = Extraction(written: seq<string>, failure: Option<Failure>)

  /**
   * The gzip branch writes one file named after the Content-Disposition (it is
   * opened, so created, before the payload is decompressed); the zip branch
   * writes every member of the archive; an unrecognized attachment writes nothing.
   */
  function Extract(a: Attachment, gunzips: seq<bv8> -> bool, unzip: seq<bv8> -> Option<seq<string>>): Extraction {
    match Classify(a)
    case Err(f) => Extraction([], Some(f))
    case Ok(Unrecognized) => Extraction([], None)
    case Ok(Zip) =>
      (match unzip(a.payload)
       case None => Extraction([], Some(NotZip))
       case Some(members) => Extraction(members, None))
    case Ok(Gzip) =>
      match DispositionFilename(a.disposition)
      case Err(f) => Extraction([], Some(f))
      case Ok(fname) =>
        var xmlName := XmlName(fname);
        if xmlName == [] then Extraction([], Some(EmptyName))
        else Extraction([xmlName], if gunzips(a.payload) then None else Some(NotGzip))
  }

  /**
   * The gzip branch writes at most one file, and exactly one when the name
   * survives the cut. When it writes one, it raises exactly when the payload
   * does not decompress; when it writes none, it always raises: for the
   * missing header, for the header without '=', or for the empty name.
   */
  lemma GzipWritesOneFile(a: Attachment, gunzips: seq<bv8> -> bool, unzip: seq<bv8> -> Option<seq<string>>)
    requires GzipIndicated(a)
    ensures var e := Extract(a, gunzips, unzip);
      && |e.written| <= 1
      && (e.written != [] <==>
            DispositionFilename(a.disposition).Ok? && |DispositionFilename(a.disposition).value| > 3)
      && (e.written != [] ==>
            && e.written[0] == XmlName(DispositionFilename(a.disposition).value)
            && (e.failure.None? <==> gunzips(a.payload)))
      && (e.written == [] ==> e.failure.Some?)
      && (DispositionFilename(a.disposition).Err? ==> e.failure == Some(DispositionFilename(a.disposition).error))
      && (DispositionFilename(a.disposition).Ok? && |DispositionFilename(a.disposition).value| <= 3 ==>
            e.failure == Some(EmptyName))
  {
  }

  /** The zip branch writes every member of the archive, whatever its extension. */
  lemma ZipWritesEveryMember(a: Attachment, gunzips: seq<bv8> -> bool, unzip: seq<bv8> -> Option<seq<string>>)
    requires a.filename.Some? && !GzipIndicated(a) && ZipIndicated(a)
    ensures unzip(a.payload).Some? ==> Extract(a, gunzips, unzip) == Extraction(unzip(a.payload).value, None)
    ensures unzip(a.payload).None? ==> Extract(a, gunzips, unzip) == Extraction([], Some(NotZip))
  {
  }

  /** An attachment that passes neither test writes nothing and raises nothing. */
  lemma UnrecognizedWritesNothing(a: Attachment, gunzips: seq<bv8> -> bool, unzip: seq<bv8> -> Option<seq<string>>)
    requires a.filename.Some? && !ZipIndicated(a)
    ensures Extract(a, gunzips, unzip) == Extraction([], None)
  {
  }

  /** A file in a directory listing: writing a name already present keeps its single entry. */
  function AddName(listing: seq<string>, name: string): (r: seq<string>)
    ensures Distinct(listing) ==> Distinct(r)
    ensures forall n :: n in r <==> n in listing || n == name
  {
    if name in listing then listing else listing + [name]
  }

  /** The listing after the files `names` were written one after the other. */
  function AddNames(listing: seq<string>, names: seq<string>): (r: seq<string>)
    ensures Distinct(listing) ==> Distinct(r)
    ensures forall n :: n in r <==> n in listing || n in names
  {
    if names == [] then listing
    else AddName(AddNames(listing, names[..|names| - 1]), names[|names| - 1])
  }

  /** An upload of one scratch file. */
  datatype Put = Put(bucket: string, key: string)

  /** The uploads `upload_resulting_files_to_s3` issues for a listing, in listing order. */
  function Sweep(listing: seq<string>, bucket: string): seq<Put> {
    if listing == [] then []
    else
      var name := listing[|listing| - 1];
      Sweep(listing[..|listing| - 1], bucket) + (if EndsWith(name, XmlSuffix) then [Put(bucket, OutputPrefix + name)] else [])
  }

  lemma PrefixCancels(p: string, a: string, b: string)
    requires p + a == p + b
    ensures a == b
  {
    assert a == (p + a)[|p|..];
    assert b == (p + b)[|p|..];
  }

  /**
   * Each `.xml` name is uploaded as often as it is listed, under `xml/` and
   * its name; any other name is never uploaded.
   */
  lemma {:induction false} SweepCounts(listing: seq<string>, bucket: string, name: string)
    ensures multiset(Sweep(listing, bucket))[Put(bucket, OutputPrefix + name)] ==
      if EndsWith(name, XmlSuffix) then multiset(listing)[name] else 0
  {
    if listing != [] {
      var front := listing[..|listing| - 1];
      var last := listing[|listing| - 1];
      assert listing == front + [last];
      SweepCounts(front, bucket, name);
      if Put(bucket, OutputPrefix + last) == Put(bucket, OutputPrefix + name) {
        PrefixCancels(OutputPrefix, last, name);
      }
    }
  }

  /** Every upload goes to `bucket` under `xml/` followed by a listed `.xml` name. */
  lemma {:induction false} SweepKeys(listing: seq<string>, bucket: string)
    ensures forall p :: p in Sweep(listing, bucket) ==>
      p.bucket == bucket && exists name :: name in listing && EndsWith(name, XmlSuffix) && p.key == OutputPrefix + name
  {
    if listing != [] {
      var front := listing[..|listing| - 1];
      SweepKeys(front, bucket);
      assert listing == front + [listing[|listing| - 1]];
    }
  }

  /** In a directory listing every `.xml` file is uploaded exactly once. */
  lemma SweepUploadsEachXmlOnce(listing: seq<string>, bucket: string, name: string)
    requires Distinct(listing) && name in listing && EndsWith(name, XmlSuffix)
    ensures multiset(Sweep(listing, bucket))[Put(bucket, OutputPrefix + name)] == 1
  {
    SweepCounts(listing, bucket, name);
    DistinctOnce(listing, name);
  }

  /** `if not OUTPUT_BUCKET_NAME: OUTPUT_BUCKET_NAME = bucket` */
  function Destination(configured: string, source: string): string {
    if configured == "" then source else configured
  }

  /**
   * The fallback is the source bucket only while the bucket name is the empty
   * string: the first invocation of a container whose OUTPUT_BUCKET_NAME is set
   * to "" fixes the destination for every later one, whatever bucket those read from.
   */
  lemma DestinationSticks(configured: string, first: string, later: string)
    requires first != ""
    ensures Destination(configured, first) != ""
    ensures Destination(Destination(configured, first), later) == Destination(configured, first)
  {
  }

  /** How an invocation ends: `return 0`, or an exception. */
  datatype Outcome = Returned | Raised(failure: Failure)

  /** An invocation's outcome, the scratch listing it leaves and the uploads it issues. */
  datatype Effect = Effect(outcome: Outcome, scratch: seq<string>, puts: seq<Put>)

  /**
   * One invocation of `lambda_handler` for the parsed message `msg`, uploading
   * to `destination` with the scratch directory listing `scratch`.
   */
  function Handle(destination: string, scratch: seq<string>, msg: Payload,
                  gunzips: seq<bv8> -> bool, unzip: seq<bv8> -> Option<seq<string>>): Effect
  {
    if PayloadLength(msg) != 2 then Effect(Returned, scratch, [])
    else match msg
      case Body(_) => Effect(Raised(NotAPart), scratch, [])
      case Parts(ps) =>
        var e := Extract(ps[1], gunzips, unzip);
        var after := AddNames(scratch, e.written);
        match e.failure
        case Some(f) => Effect(Raised(f), after, [])
        case None => Effect(Returned, after, Sweep(after, destination))
  }

  /** A message without exactly two top-level parts returns 0 and writes and uploads nothing. */
  lemma PartGate(destination: string, scratch: seq<string>, msg: Payload,
                 gunzips: seq<bv8> -> bool, unzip: seq<bv8> -> Option<seq<string>>)
    ensures PayloadLength(msg) != 2 ==> Handle(destination, scratch, msg, gunzips, unzip) == Effect(Returned, scratch, [])
    ensures (PayloadLength(msg) == 2 && msg.Parts?) ==>
      Handle(destination, scratch, msg, gunzips, unzip) == Handle(destination, scratch, Parts([msg.parts[1], msg.parts[1]]), gunzips, unzip)
  {
  }

  /**
   * After a successful extraction the whole scratch directory is swept, so a
   * `.xml` file left by an earlier invocation is uploaded again, even when the
   * attachment is not recognized.
   */
  lemma LeftoversUploadedAgain(destination: string, scratch: seq<string>, msg: Payload,
                               gunzips: seq<bv8> -> bool, unzip: seq<bv8> -> Option<seq<string>>, name: string)
    requires name in scratch && EndsWith(name, XmlSuffix)
    requires Handle(destination, scratch, msg, gunzips, unzip).outcome == Returned && PayloadLength(msg) == 2
    ensures Put(destination, OutputPrefix + name) in Handle(destination, scratch, msg, gunzips, unzip).puts
  {
    var e := Handle(destination, scratch, msg, gunzips, unzip);
    SweepCounts(e.scratch, destination, name);
  }

  /** A non-`.xml` name is never uploaded. */
  lemma OtherNamesNeverUploaded(destination: string, scratch: seq<string>, msg: Payload,
                                gunzips: seq<bv8> -> bool, unzip: seq<bv8> -> Option<seq<string>>, name: string)
    requires !EndsWith(name, XmlSuffix)
    ensures Put(destination, OutputPrefix + name) !in Handle(destination, scratch, msg, gunzips, unzip).puts
  {
    var e := Handle(destination, scratch, msg, gunzips, unzip);
    SweepCounts(e.scratch, destination, name);
  }

  /** A gzip attachment with `filename="n.gz"` in its Content-Disposition writes just `n`. */
  lemma GzipExtractsName(a: Attachment, gunzips: seq<bv8> -> bool, unzip: seq<bv8> -> Option<seq<string>>,
                         before: string, n: string)
    requires GzipIndicated(a)
    requires '=' !in before && '=' !in n && '"' !in n && n != []
    requires a.disposition == Some(before + "=\"" + n + ".gz\"")
    ensures Extract(a, gunzips, unzip) == Extraction([n], if gunzips(a.payload) then None else Some(NotGzip))
  {
    assert before + "=\"" + n + ".gz\"" == before + "=\"" + (n + ".gz") + "\"";
    DispositionQuotedName(before, n + ".gz");
    XmlNameDropsAnySuffix(n, ".gz");
  }

  /**
   * A gzip report `n.gz` named in the Content-Disposition as `filename="n.gz"`
   * lands in an empty scratch directory as `n` and, when `n` ends in `.xml`,
   * is uploaded once as `xml/n`: "report.xml.gz" becomes "xml/report.xml".
   */
  lemma GzipReportUploaded(destination: string, first: Attachment, a: Attachment,
                           gunzips: seq<bv8> -> bool, unzip: seq<bv8> -> Option<seq<string>>,
                           before: string, n: string)
    requires GzipIndicated(a) && gunzips(a.payload)
    requires '=' !in before && '=' !in n && '"' !in n && n != []
    requires a.disposition == Some(before + "=\"" + n + ".gz\"")
    ensures Handle(destination, [], Parts([first, a]), gunzips, unzip) ==
      Effect(Returned, [n], if EndsWith(n, XmlSuffix) then [Put(destination, OutputPrefix + n)] else [])
  {
    GzipExtractsName(a, gunzips, unzip, before, n);
    var msg := Parts([first, a]);
    assert PayloadLength(msg) == 2 && msg.parts[1] == a;
    assert [n][..0] == [];
    assert AddNames([], [n]) == [n];
    assert Sweep([n], destination) == if EndsWith(n, XmlSuffix) then [Put(destination, OutputPrefix + n)] else [];
  }

  /** The name derivation for the usual gzip attachment. */
  lemma ReportXmlGz()
    ensures XmlName("report.xml.gz") == "report.xml" && EndsWith("report.xml", XmlSuffix)
  {
    XmlNameDropsAnySuffix("report.xml", ".gz");
  }

  /** Writing a.xml, b.xml and c.txt into an empty directory lists all three. */
  lemma SampleListing()
    ensures AddNames([], ["a.xml", "b.xml", "c.txt"]) == ["a.xml", "b.xml", "c.txt"]
  {
    var one := ["a.xml"];
    var two := ["a.xml", "b.xml"];
    var names := ["a.xml", "b.xml", "c.txt"];
    assert names[..2] == two && two[..1] == one && one[..0] == [];
    assert "b.xml" !in one by {
      assert "b.xml"[0] != "a.xml"[0];
    }
    assert "c.txt" !in two by {
      assert "c.txt"[0] != "a.xml"[0] && "c.txt"[0] != "b.xml"[0];
    }
    assert AddNames([], one) == one;
    assert AddNames([], two) == two;
  }

  /** The sweep of that listing uploads a.xml and b.xml, in that order, and not c.txt. */
  lemma SampleSweep(destination: string)
    ensures Sweep(["a.xml", "b.xml", "c.txt"], destination) ==
      [Put(destination, "xml/a.xml"), Put(destination, "xml/b.xml")]
  {
    var one := ["a.xml"];
    var two := ["a.xml", "b.xml"];
    var names := ["a.xml", "b.xml", "c.txt"];
    assert names[..2] == two && two[..1] == one && one[..0] == [];
    assert EndsWith("a.xml", XmlSuffix) && EndsWith("b.xml", XmlSuffix);
    assert !EndsWith("c.txt", XmlSuffix) by {
      assert "c.txt"[1..][1] != XmlSuffix[1];
    }
    assert OutputPrefix + "a.xml" == "xml/a.xml" && OutputPrefix + "b.xml" == "xml/b.xml";
    assert Sweep(one, destination) == Sweep([], destination) + [Put(destination, OutputPrefix + "a.xml")];
    assert Sweep(two, destination) == Sweep(one, destination) + [Put(destination, OutputPrefix + "b.xml")];
  }

  /** A zip with members a.xml, b.xml and c.txt, into an empty scratch directory, uploads the two `.xml` members. */
  lemma ZipMembersUploaded(destination: string, first: Attachment, a: Attachment,
                           gunzips: seq<bv8> -> bool, unzip: seq<bv8> -> Option<seq<string>>)
    requires a.filename.Some? && !GzipIndicated(a) && ZipIndicated(a)
    requires unzip(a.payload) == Some(["a.xml", "b.xml", "c.txt"])
    ensures Handle(destination, [], Parts([first, a]), gunzips, unzip) ==
      Effect(Returned, ["a.xml", "b.xml", "c.txt"], [Put(destination, "xml/a.xml"), Put(destination, "xml/b.xml")])
  {
    ZipWritesEveryMember(a, gunzips, unzip);
    SampleListing();
    SampleSweep(destination);
    var msg := Parts([first, a]);
    assert PayloadLength(msg) == 2 && msg.parts[1] == a;
  }

  /** One warm Lambda container: the global bucket name, the scratch directory and the uploads issued so far. */
  class Extractor {
    /** `OUTPUT_BUCKET_NAME` */
    var outputBucket: string
    /** `os.listdir("/tmp/output/")` */
    var scratch: seq<string>
    var uploads: seq<Put>

    ghost predicate Valid()
      reads this
    {
      Distinct(scratch)
    }

    /** A fresh container: the configured bucket name, an empty scratch directory, no uploads. */
    constructor(configured: string)
      ensures outputBucket == configured && scratch == [] && uploads == []
      ensures Valid()
    {
      outputBucket := configured;
      scratch := [];
      uploads := [];
    }

    /** `extract_attachment`: writes the files the attachment yields into the scratch directory. */
    method ExtractAttachment(a: Attachment, gunzips: seq<bv8> -> bool, unzip: seq<bv8> -> Option<seq<string>>)
      returns (failure: Option<Failure>)
      requires Valid()
      modifies this
      ensures Valid()
      ensures var e := Extract(a, gunzips, unzip);
        scratch == AddNames(old(scratch), e.written) && failure == e.failure
      ensures outputBucket == old(outputBucket) && uploads == old(uploads)
    {
      var e := Extract(a, gunzips, unzip);
      var start := scratch;
      for i := 0 to |e.written|
        invariant scratch == AddNames(start, e.written[..i])
        invariant outputBucket == old(outputBucket) && uploads == old(uploads)
      {
        assert e.written[..i + 1][..i] == e.written[..i];
        var name := e.written[i];
        if name !in scratch {
          scratch := scratch + [name];
        }
      }
      assert e.written[..|e.written|] == e.written;
      failure := e.failure;
    }

    /** `upload_resulting_files_to_s3`: one upload per `.xml` name of the listing, in listing order. */
    method UploadResultingFiles()
      modifies this
      ensures uploads == old(uploads) + Sweep(scratch, outputBucket)
      ensures scratch == old(scratch) && outputBucket == old(outputBucket)
    {
      var listing := scratch;
      for i := 0 to |listing|
        invariant uploads == old(uploads) + Sweep(listing[..i], outputBucket)
        invariant scratch == listing && outputBucket == old(outputBucket)
      {
        assert listing[..i + 1][..i] == listing[..i];
        var fileName := listing[i];
        if EndsWith(fileName, XmlSuffix) {
          uploads := uploads + [Put(outputBucket, OutputPrefix + fileName)];
        }
      }
      assert listing[..|listing|] == listing;
    }

    /** `lambda_handler` for a message read from the bucket `bucket`. */
    method LambdaHandler(bucket: string, msg: Payload, gunzips: seq<bv8> -> bool, unzip: seq<bv8> -> Option<seq<string>>)
      returns (outcome: Outcome)
      requires Valid()
      modifies this
      ensures Valid()
      ensures outputBucket == Destination(old(outputBucket), bucket)
      ensures var e := Handle(outputBucket, old(scratch), msg, gunzips, unzip);
        outcome == e.outcome && scratch == e.scratch && uploads == old(uploads) + e.puts
    {
      if outputBucket == "" {
        outputBucket := bucket;
      }
      if PayloadLength(msg) != 2 {
        return Returned;
      }
      match msg
      case Body(_) =>
        outcome := Raised(NotAPart);
      case Parts(ps) =>
        var failure := ExtractAttachment(ps[1], gunzips, unzip);
        if failure.Some? {
          return Raised(failure.value);
        }
        UploadResultingFiles();
        outcome := Returned;
    }
  }
}
