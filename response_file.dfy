/** Where a raw response is stored, and how the property id is read back from the
    stored file's path. Responses are written to `<folder>/<id>_<MM.DD.YYYY>.txt`; the
    file list comes back from `glob` with the folder and the file name joined by one
    backslash, and the id is recovered with `path.split('\\')[1].split('_')[0]`. */
module ResponseFile {
  import opened Python
  import opened Payload

  /** The folder the responses are written to and globbed from. */
  const Folder := "C:/Users/RBurns/Documents"

  /** `n` in decimal, left-padded with zeros to `width` characters. */
  function ZeroPad(n: nat, width: nat): (s: string)
    ensures |s| == if |DigitsOf(n)| >= width then |DigitsOf(n)| else width
    ensures s[|s| - |DigitsOf(n)|..] == DigitsOf(n)
    ensures forall i :: 0 <= i < |s| - |DigitsOf(n)| ==> s[i] == '0'
    ensures forall i :: 0 <= i < |s| ==> IsDigit(s[i])
    decreases width
  {
    var digits := DigitsOf(n);
    if |digits| >= width then digits else "0" + ZeroPad(n, width - 1)
  }

  /** `strftime("%m.%d.%Y")` of the collection date. */
  function DateStamp(month: nat, day: nat, year: nat): (stamp: string)
    requires 1 <= month <= 12 && 1 <= day <= 31 && 1 <= year <= 9999
    ensures forall i :: 0 <= i < |stamp| ==> IsDigit(stamp[i]) || stamp[i] == '.'
  {
    var mm, dd, yyyy := ZeroPad(month, 2), ZeroPad(day, 2), ZeroPad(year, 4);
    var stamp := mm + "." + dd + "." + yyyy;
    forall i | 0 <= i < |stamp| ensures IsDigit(stamp[i]) || stamp[i] == '.' {
      if i < |mm| {
        assert stamp[i] == mm[i];
      } else if |mm| < i < |mm| + 1 + |dd| {
        assert stamp[i] == dd[i - |mm| - 1];
      } else if i > |mm| + 1 + |dd| {
        assert stamp[i] == yyyy[i - |mm| - |dd| - 2];
      }
    }
    stamp
  }

  /** The name a response is stored under. */
  function FileName(idText: string, stamp: string): (name: string)
    ensures '_' !in idText ==> Split(name, '_')[0] == idText
    ensures |name| >= 4 && name[|name| - 4..] == ".txt"
  {
    var name := idText + "_" + stamp + ".txt";
    assert name == idText + ['_'] + (stamp + ".txt");
    if '_' !in idText then SplitAtFirstSeparator(idText, '_', stamp + ".txt"); name else name
  }

  /** The path `glob` reports for a file of the folder. */
  function GlobPath(dir: string, name: string): (path: string)
    ensures '\\' !in dir ==> Split(path, '\\') == [dir] + Split(name, '\\')
  {
    if '\\' !in dir then SplitAtFirstSeparator(dir, '\\', name); dir + "\\" + name
    else dir + "\\" + name
  }

  /** `path.split('\\')[1].split('_')[0]`: IndexError when the path holds no backslash;
      otherwise the text of the second segment up to its first underscore. */
  function ExtractId(path: string): (r: Result<string>)
    ensures r.Raise? <==> '\\' !in path
    ensures r.Raise? ==> r.error == IndexError
    ensures r.Ok? ==> '_' !in r.value && '\\' !in r.value
  {
    var segments := Split(path, '\\');
    if |segments| < 2 then
      assert Join(segments, "\\") == segments[0];
      Raise(IndexError)
    else
      assert '\\' in path by {
        assert path == segments[0] + "\\" + Join(segments[1..], "\\");
        assert path[|segments[0]|] == '\\';
      }
      var head := Split(segments[1], '_')[0];
      assert forall c :: c in head ==> c in segments[1] by {
        var pieces := Split(segments[1], '_');
        if |pieces| > 1 {
          assert segments[1] == head + "_" + Join(pieces[1..], "_");
        }
      }
      Ok(head)
  }

  /** Reading the id back from the path of a stored response gives the id it was stored
      under, as long as the id holds neither separator and the folder and stamp hold no
      backslash. */
  lemma ExtractIdRoundTrip(dir: string, idText: string, stamp: string)
    requires '\\' !in dir && '\\' !in stamp
    requires '\\' !in idText && '_' !in idText
    ensures ExtractId(GlobPath(dir, FileName(idText, stamp))) == Ok(idText)
  {
    var name := FileName(idText, stamp);
    var rest := stamp + ".txt";
    assert name == idText + "_" + rest;
    assert '\\' !in name by {
      assert forall i :: 0 <= i < |name| ==> name[i] != '\\' by {
        forall i | 0 <= i < |name| ensures name[i] != '\\' {
          if i < |idText| { assert name[i] == idText[i]; }
          else if i > |idText| { assert name[i] == rest[i - |idText| - 1]; }
        }
      }
    }
    SplitWithoutSeparator(name, '\\');
  }

  /** For a response stored by the dispatcher (`str(id)` and the date stamp, in a
      folder without backslashes), the id read back from the globbed path is the id's
      text, and the reissue payload built from it is the payload of the id itself. */
  lemma StoredResponseRoundTrip(dir: string, n: int, month: nat, day: nat, year: nat)
    requires '\\' !in dir
    requires 1 <= month <= 12 && 1 <= day <= 31 && 1 <= year <= 9999
    ensures var path := GlobPath(dir, FileName(StrOfInt(n), DateStamp(month, day, year)));
            && ExtractId(path) == Ok(StrOfInt(n))
            && PayloadFor(ExtractId(path).value) == Ok(BuildPayload(n))
  {
    IdTextSeparatorFree(n);
    StampSeparatorFree(month, day, year);
    ExtractIdRoundTrip(dir, StrOfInt(n), DateStamp(month, day, year));
    PayloadForStrOfInt(n);
  }

  /** The scraper's folder qualifies. */
  lemma FolderSeparatorFree()
    ensures '\\' !in Folder
  {
  }

  lemma IdTextSeparatorFree(n: int)
    ensures '\\' !in StrOfInt(n) && '_' !in StrOfInt(n)
  {
    var idText := StrOfInt(n);
    forall i | 0 <= i < |idText| ensures idText[i] != '\\' && idText[i] != '_' {
      assert IsDigit(idText[i]) || idText[i] == '-';
    }
  }

  lemma StampSeparatorFree(month: nat, day: nat, year: nat)
    requires 1 <= month <= 12 && 1 <= day <= 31 && 1 <= year <= 9999
    ensures '\\' !in DateStamp(month, day, year)
  {
    var stamp := DateStamp(month, day, year);
    forall i | 0 <= i < |stamp| ensures stamp[i] != '\\' {
      assert IsDigit(stamp[i]) || stamp[i] == '.';
    }
  }
}
