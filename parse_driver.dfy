/** The driver that turns the stored responses into one frame (`parse_responses`): the
    files are read in the order `glob` lists them, each one's row is appended to the
    frame, and a file whose parse raises ValueError is fetched again once
    (`reissue_call_and_read_response_into_df`). A failure of the reissue, and any other
    exception, ends the run. */
module ParseDriver {
  import opened Python
  import opened Json
  import opened Table
  import opened Payload
  import opened ResponseFile
  import opened ResponseParser
  import opened Schema

  /** A stored response: the path `glob` reports for it and what `json.loads` makes of
      its text. */
  datatype StoredFile = StoredFile(path: string, body: FileBody)

  /** The server's answer to a payload, as `json.loads` decodes it once it has been
      written over the stored file and read back. */
  type Fetch = seq<Operation> -> FileBody

  /** The parse of one stored file (`read_call_response_into_df` without the final
      concatenation); `ReadResponse` with a given float parser is the one the scraper
      uses (see `Reader`). */
  type Reader = (string, FileBody) -> Result<Row>

  /** The scraper's parse. */
  function ReaderOf(parseFloat: string -> Option<real>): Reader
  {
    (path, body) => ReadResponse(path, body, parseFloat)
  }

  /** The reissue: the id is read from the path, the payload is built from it
      (`get_payload` applies `int` to the text), the answer replaces the file, and the
      file is parsed again. Nothing here is caught. */
  function Reissue(path: string, fetch: Fetch, read: Reader): (r: Result<Row>)
    ensures ExtractId(path).Raise? ==> r == Raise(IndexError)
    ensures ExtractId(path).Ok? && IntOfString(ExtractId(path).value).Raise? ==> r == Raise(ValueError)
    ensures ExtractId(path).Ok? && IntOfString(ExtractId(path).value).Ok? ==>
              r == read(path, fetch(BuildPayload(IntOfString(ExtractId(path).value).value)))
  {
    var idText :- ExtractId(path);
    var payload :- PayloadFor(idText);
    read(path, fetch(payload))
  }

  /** One pass of the loop body: the parse, and on ValueError only, the reissue. */
  function ParseFile(file: StoredFile, fetch: Fetch, read: Reader): (r: Result<Row>)
    ensures read(file.path, file.body).Ok? ==> r == read(file.path, file.body)
    ensures r == Raise(ValueError) ==> read(file.path, file.body) == Raise(ValueError)
  {
    var first := read(file.path, file.body);
    if first.Raise? && first.error == ValueError then Reissue(file.path, fetch, read) else first
  }

  /** The outcome of the loop body for one file. */
  type FileParse = StoredFile -> Result<Row>

  /** The loop body of `parse_responses`: the parse with its one retry. */
  function Retrying(fetch: Fetch, read: Reader): FileParse
  {
    file => ParseFile(file, fetch, read)
  }

  /** The frame after the files of `files`, in order, or the exception of the first file
      whose outcome is one. */
  function Run(files: seq<StoredFile>, parse: FileParse): (r: Result<Frame>)
    ensures files == [] ==> r == Ok(EmptyFrame)
    ensures r.Ok? ==> |r.value.rows| == |files|
  {
    if files == [] then Ok(EmptyFrame)
    else
      var df :- Run(files[..|files| - 1], parse);
      var row :- parse(files[|files| - 1]);
      Ok(Append(df, row))
  }

  /** The state of the loop after `i` files. */
  ghost predicate Parsed(files: seq<StoredFile>, parse: FileParse, i: nat, df: Frame)
  {
    i <= |files| && Run(files[..i], parse) == Ok(df)
  }

  lemma ParsedStart(files: seq<StoredFile>, parse: FileParse)
    ensures Parsed(files, parse, 0, EmptyFrame)
  {
    assert files[..0] == [];
  }

  lemma ParsedNext(files: seq<StoredFile>, parse: FileParse, i: nat, df: Frame)
    requires i < |files| && Parsed(files, parse, i, df)
    requires parse(files[i]).Ok?
    ensures Parsed(files, parse, i + 1, Append(df, parse(files[i]).value))
  {
    assert files[..i + 1][..i] == files[..i];
  }

  lemma ParsedFails(files: seq<StoredFile>, parse: FileParse, i: nat, df: Frame)
    requires i < |files| && Parsed(files, parse, i, df)
    requires parse(files[i]).Raise?
    ensures Run(files, parse) == Raise(parse(files[i]).error)
  {
    assert files[..i + 1][..i] == files[..i];
    RunPrefixFails(files, parse, i + 1);
  }

  /** Once a prefix fails, so does every longer list, with the same exception. */
  lemma {:induction false} RunPrefixFails(files: seq<StoredFile>, parse: FileParse, k: nat)
    requires k <= |files| && Run(files[..k], parse).Raise?
    ensures Run(files, parse) == Run(files[..k], parse)
    decreases |files| - k
  {
    if k < |files| {
      assert files[..k + 1][..k] == files[..k];
      RunPrefixFails(files, parse, k + 1);
    } else {
      assert files[..k] == files;
    }
  }

  /** `parse_responses` over the file list, without the timing, the CSV copy and the
      returned file list (which is its argument). */
  method ParseResponses(files: seq<StoredFile>, fetch: Fetch, read: Reader)
    returns (r: Result<Frame>)
    ensures r == Run(files, Retrying(fetch, read))
  {
    ghost var parse := Retrying(fetch, read);
    var df := EmptyFrame;
    var i := 0;
    ParsedStart(files, parse);
    while i < |files|
      invariant Parsed(files, parse, i, df)
    {
      var file := files[i];
      var row := read(file.path, file.body);
      if row.Raise? && row.error == ValueError {
        row := Reissue(file.path, fetch, read);
      }
      assert row == parse(files[i]);
      if row.Raise? {
        ParsedFails(files, parse, i, df);
        return Raise(row.error);
      }
      ParsedNext(files, parse, i, df);
      df := Append(df, row.value);
      i := i + 1;
    }
    assert files[..i] == files;
    return Ok(df);
  }

  /** The retry rule: a parse that raises ValueError is followed by exactly one reissue,
      whose outcome is final, a second ValueError included; any other outcome, another
      exception included, is kept as it is. */
  lemma RetryOnlyOnValueError(file: StoredFile, fetch: Fetch, read: Reader)
    ensures read(file.path, file.body) == Raise(ValueError) ==>
              ParseFile(file, fetch, read) == Reissue(file.path, fetch, read)
    ensures read(file.path, file.body) != Raise(ValueError) ==>
              ParseFile(file, fetch, read) == read(file.path, file.body)
  {
  }

  /** With the scraper's parse, only a file that does not decode is reissued: a KeyError or
      TypeError from a decoded document ends the run. */
  lemma ScraperRetry(file: StoredFile, fetch: Fetch, parseFloat: string -> Option<real>)
    ensures file.body.Decoded? ==>
              ParseFile(file, fetch, ReaderOf(parseFloat)) == ReadResponse(file.path, file.body, parseFloat)
    ensures file.body.Undecodable? ==>
              ParseFile(file, fetch, ReaderOf(parseFloat)) == Reissue(file.path, fetch, ReaderOf(parseFloat))
  {
  }

  /** A file the dispatcher stored under the id `n` is reissued with the payload of `n`
      itself. */
  lemma ReissueOfStoredPath(dir: string, n: int, month: nat, day: nat, year: nat, fetch: Fetch, read: Reader)
    requires '\\' !in dir
    requires 1 <= month <= 12 && 1 <= day <= 31 && 1 <= year <= 9999
    ensures var path := GlobPath(dir, FileName(StrOfInt(n), DateStamp(month, day, year)));
            Reissue(path, fetch, read) == read(path, fetch(BuildPayload(n)))
  {
    StoredResponseRoundTrip(dir, n, month, day, year);
    IntOfStrOfInt(n);
  }

  /** With the scraper's parse, such a file that does not decode is parsed again from the
      answer to the payload of `n`, and a second undecodable answer propagates as
      ValueError. */
  lemma ReissueOfStoredFile(dir: string, n: int, month: nat, day: nat, year: nat,
                            fetch: Fetch, parseFloat: string -> Option<real>)
    requires '\\' !in dir
    requires 1 <= month <= 12 && 1 <= day <= 31 && 1 <= year <= 9999
    ensures var file := StoredFile(GlobPath(dir, FileName(StrOfInt(n), DateStamp(month, day, year))), Undecodable);
            && ParseFile(file, fetch, ReaderOf(parseFloat)) == ReadResponse(file.path, fetch(BuildPayload(n)), parseFloat)
            && (fetch(BuildPayload(n)).Undecodable? ==> ParseFile(file, fetch, ReaderOf(parseFloat)) == Raise(ValueError))
  {
    var file := StoredFile(GlobPath(dir, FileName(StrOfInt(n), DateStamp(month, day, year))), Undecodable);
    ScraperRetry(file, fetch, parseFloat);
    ReissueOfStoredPath(dir, n, month, day, year, fetch, ReaderOf(parseFloat));
    ReaderOfApplies(file.path, fetch(BuildPayload(n)), parseFloat);
  }

  /** The scraper's reader is `ReadResponse`. */
  lemma ReaderOfApplies(path: string, body: FileBody, parseFloat: string -> Option<real>)
    ensures ReaderOf(parseFloat)(path, body) == ReadResponse(path, body, parseFloat)
  {
  }

  /** A successful run has one row per file, in the files' order, each being that file's
      parsed row. */
  lemma {:induction false} RunRows(files: seq<StoredFile>, parse: FileParse)
    requires Run(files, parse).Ok?
    ensures var df := Run(files, parse).value;
            && |df.rows| == |files|
            && forall i :: 0 <= i < |files| ==>
                 parse(files[i]).Ok? && df.rows[i] == parse(files[i]).value
  {
    if files != [] {
      var front := files[..|files| - 1];
      RunRows(front, parse);
      var df := Run(front, parse).value;
      var row := parse(files[|files| - 1]).value;
      assert Run(files, parse).value == Append(df, row);
      forall i | 0 <= i < |files|
        ensures parse(files[i]).Ok?
        ensures Run(files, parse).value.rows[i] == parse(files[i]).value
      {
        if i < |front| {
          assert files[i] == front[i];
        }
      }
    }
  }

  /** A run fails exactly when some file fails, and then with the exception of the first
      such file. */
  lemma {:induction false} RunFails(files: seq<StoredFile>, parse: FileParse)
    ensures Run(files, parse).Raise? <==>
              exists i :: 0 <= i < |files| && parse(files[i]).Raise?
    ensures Run(files, parse).Raise? ==>
              exists k :: 0 <= k < |files| && parse(files[k]).Raise?
                && (forall j :: 0 <= j < k ==> parse(files[j]).Ok?)
                && Run(files, parse).error == parse(files[k]).error
  {
    if files != [] {
      var front := files[..|files| - 1];
      var last := |files| - 1;
      RunFails(front, parse);
      assert forall i :: 0 <= i < |front| ==> front[i] == files[i];
      if Run(front, parse).Raise? {
        var k :| 0 <= k < |front| && parse(front[k]).Raise?
                 && (forall j :: 0 <= j < k ==> parse(front[j]).Ok?)
                 && Run(front, parse).error == parse(front[k]).error;
        assert parse(files[k]).Raise?;
      } else if parse(files[last]).Raise? {
        assert forall j :: 0 <= j < last ==> parse(files[j]).Ok?;
      } else {
        forall i | 0 <= i < |files| ensures parse(files[i]).Ok? {
          if i < last {
            assert front[i] == files[i];
          }
        }
      }
    }
  }

  /** With the scraper's parse, a row read on the first try or on the reissue fills every
      column, carries the id read from the file's path, and holds no bedroom metric left
      as '-'. */
  lemma ScraperRow(file: StoredFile, fetch: Fetch, parseFloat: string -> Option<real>)
    requires ParseFile(file, fetch, ReaderOf(parseFloat)).Ok?
    ensures var row := ParseFile(file, fetch, ReaderOf(parseFloat)).value;
            && Complete(row)
            && ExtractId(file.path).Ok? && row[CoStarPropertyID] == Text(ExtractId(file.path).value)
            && forall kind: BedroomType, m: Metric :: row[Bedroom(kind, m)] != Text("-")
  {
    var read := ReaderOf(parseFloat);
    ScraperRetry(file, fetch, parseFloat);
    if file.body.Decoded? {
      ParsedRow(file.path, file.body, parseFloat);
    } else {
      var n := IntOfString(ExtractId(file.path).value).value;
      ReaderOfApplies(file.path, fetch(BuildPayload(n)), parseFloat);
      ParsedRow(file.path, fetch(BuildPayload(n)), parseFloat);
    }
  }

  /** With the scraper's parse, every row of a successful run has those properties. */
  lemma ScraperRows(files: seq<StoredFile>, fetch: Fetch, parseFloat: string -> Option<real>)
    requires Run(files, Retrying(fetch, ReaderOf(parseFloat))).Ok?
    ensures |Run(files, Retrying(fetch, ReaderOf(parseFloat))).value.rows| == |files|
    ensures forall i :: 0 <= i < |files| ==>
              var row := Run(files, Retrying(fetch, ReaderOf(parseFloat))).value.rows[i];
              && Complete(row)
              && ExtractId(files[i].path).Ok? && row[CoStarPropertyID] == Text(ExtractId(files[i].path).value)
              && forall kind: BedroomType, m: Metric :: row[Bedroom(kind, m)] != Text("-")
  {
    var parse := Retrying(fetch, ReaderOf(parseFloat));
    RunRows(files, parse);
    forall i | 0 <= i < |files|
      ensures var row := Run(files, parse).value.rows[i];
              && Complete(row)
              && ExtractId(files[i].path).Ok? && row[CoStarPropertyID] == Text(ExtractId(files[i].path).value)
              && forall kind: BedroomType, m: Metric :: row[Bedroom(kind, m)] != Text("-")
    {
      assert parse(files[i]) == ParseFile(files[i], fetch, ReaderOf(parseFloat));
      ScraperRow(files[i], fetch, parseFloat);
    }
  }
}
