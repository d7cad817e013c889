/**
 * preprocess_cygnss_wind.py, file naming: the time id of a CYGNSS level-2
 * wind file, and which input files still lack a regridded output.
 *
 * A CYGNSS name reads `cyg.ddmi.s<YYYYMMDD>-<HHMMSS>-e<YYYYMMDD>-<HHMMSS>.l2...`;
 * its id is the end time of the third dot field with the `-` turned into `T`.
 * The regridded output reads `<id>.nc`.
 */
module CygnssWind {
  import opened PyStrings
  import opened PurePath
  import Utils
  import PendingWork

  /**
   * The CYGNSS `file_to_time_id`: with at most one dot in the final path
   * component, the text before the first dot; otherwise the third dot field
   * without its first 18 characters, every `-` replaced by `T`. The result
   * never contains a dot or a slash, and never a `-` in the second case.
   */
  function FileToTimeId(filename: string): (timeId: string)
    ensures '.' !in timeId && '/' !in timeId
    ensures Occurrences(Name(filename), '.') > 1 ==> '-' !in timeId
  {
    var name := Name(filename);
    var fields := Split(name, '.');
    if Occurrences(name, '.') <= 1 then fields[0]
    else
      var tail := SliceFrom(fields[2], 18);
      assert '/' !in fields[2];
      Replace(tail, '-', 'T')
  }

  /** With at most one dot the CYGNSS id is the OB.DAAC id. */
  lemma {:induction false} AgreesWithUtilsOnShortNames(filename: string)
    requires Occurrences(Name(filename), '.') <= 1
    ensures FileToTimeId(filename) == Utils.FileToTimeId(filename)
  {
  }

  /** Only the final path component matters. */
  lemma {:induction false} TimeIdUsesOnlyName(path: string)
    ensures FileToTimeId(path) == FileToTimeId(Name(path))
  {
    NameIdempotent(path);
  }

  /** The directory a file sits in never changes its id. */
  lemma {:induction false} TimeIdIgnoresDirectory(dir: string, name: string)
    requires IsComponent(name)
    ensures FileToTimeId(dir + "/" + name) == FileToTimeId(name)
  {
    NameIgnoresDirectory(dir, name);
    NameOfComponent(name);
  }

  /**
   * `<mission>.<instrument>.<field>.<rest>`: the id is `field` from its 19th
   * character on with `-` rewritten to `T`; a field of at most 18
   * characters gives the empty id rather than an error.
   */
  lemma {:induction false} TimeIdManyDots(mission: string, instrument: string, field: string, rest: string)
    requires '/' !in mission && '/' !in instrument && '/' !in field && '/' !in rest
    requires '.' !in mission && '.' !in instrument && '.' !in field
    ensures FileToTimeId(mission + "." + instrument + "." + field + "." + rest)
      == Replace(SliceFrom(field, 18), '-', 'T')
    ensures |field| <= 18 ==> FileToTimeId(mission + "." + instrument + "." + field + "." + rest) == []
  {
    var name := mission + "." + instrument + "." + field + "." + rest;
    assert name == mission + "." + (instrument + "." + (field + "." + rest));
    assert IsComponent(name) by {
      assert name[|mission|] == '.' && |name| >= 2;
    }
    NameOfComponent(name);
    SplitWithoutSeparator(mission, '.');
    SplitWithoutSeparator(instrument, '.');
    SplitWithoutSeparator(field, '.');
    SplitAppend(field, rest, '.');
    SplitAppend(instrument, field + "." + rest, '.');
    SplitAppend(mission, instrument + "." + (field + "." + rest), '.');
    var fields := Split(name, '.');
    assert fields == [mission] + ([instrument] + ([field] + Split(rest, '.')));
    assert Occurrences(name, '.') > 1;
  }

  /**
   * The third field of a CYGNSS name, `s<start date>-<start time>-e<end
   * date>-<end time>`, yields `<end date>T<end time>`, e.g.
   * `s19990101-000000-e19990101-123456` gives `19990101T123456`.
   */
  lemma {:induction false} EndTimeOfSwathField(startDate: string, startTime: string, endDate: string, endTime: string)
    requires |startDate| == 8 && |startTime| == 6
    requires '-' !in endDate && '-' !in endTime
    ensures Replace(SliceFrom("s" + startDate + "-" + startTime + "-e" + endDate + "-" + endTime, 18), '-', 'T')
      == endDate + "T" + endTime
  {
    var field := "s" + startDate + "-" + startTime + "-e" + endDate + "-" + endTime;
    var head := "s" + startDate + "-" + startTime + "-e";
    assert field == head + (endDate + "-" + endTime);
    assert |head| == 18;
    var tail := SliceFrom(field, 18);
    assert tail == endDate + "-" + endTime;
    var r := Replace(tail, '-', 'T');
    assert |r| == |endDate + "T" + endTime|;
    var stamp := endDate + "T" + endTime;
    forall k | 0 <= k < |r| ensures r[k] == stamp[k] {
      if k < |endDate| {
        assert tail[k] == endDate[k] && stamp[k] == endDate[k];
        assert endDate[k] in endDate;
      } else if k == |endDate| {
        assert tail[k] == '-' && stamp[k] == 'T';
      } else {
        assert tail[k] == endTime[k - |endDate| - 1] && stamp[k] == endTime[k - |endDate| - 1];
        assert endTime[k - |endDate| - 1] in endTime;
      }
    }
  }

  /**
   * Round trip: the output `<outDir>/<id>.nc` that `main` writes for a file
   * has the file's id again.
   */
  lemma {:induction false} TimeIdRoundTrip(file: string, outDir: string)
    ensures FileToTimeId(outDir + "/" + FileToTimeId(file) + ".nc") == FileToTimeId(file)
  {
    var id := FileToTimeId(file);
    OutputNameOneDot(outDir, id);
    AgreesWithUtilsOnShortNames(outDir + "/" + id + ".nc");
    Utils.OutputNameId(outDir, id);
  }

  /** The output name `<outDir>/<id>.nc` of an id without dots or slashes has one dot in its final component. */
  lemma {:induction false} OutputNameOneDot(outDir: string, id: string)
    requires '.' !in id && '/' !in id
    ensures Occurrences(Name(outDir + "/" + id + ".nc"), '.') == 1
  {
    var name := id + ".nc";
    assert outDir + "/" + id + ".nc" == outDir + "/" + name;
    assert IsComponent(name) by {
      assert name[|id| + 1] == 'n';
    }
    NameIgnoresDirectory(outDir, name);
    NameOfComponent(name);
    assert name == id + ("." + "nc");
    OccurrencesAppend(id, "." + "nc", '.');
    OccurrencesAppend(".", "nc", '.');
    SplitWithoutSeparator(id, '.');
    SplitWithoutSeparator("nc", '.');
    assert "."[1..] == [];
  }

  /**
   * `remove_files_already_done` over the `*.nc4` inputs and the `*.nc`
   * outputs: no returned file has an id that an output already has, and
   * every returned file is an input.
   */
  method RemoveFilesAlreadyDone(inputFiles: seq<string>, outputFiles: seq<string>)
    returns (pending: seq<string>)
    ensures pending == PendingWork.Pending(inputFiles, outputFiles, FileToTimeId)
    ensures forall f :: f in pending ==> f in inputFiles
    ensures forall f, o :: f in pending && o in outputFiles ==> FileToTimeId(o) != FileToTimeId(f)
  {
    pending := PendingWork.RemoveFilesAlreadyDone(inputFiles, outputFiles, FileToTimeId);
    forall f | f in pending ensures forall o :: o in outputFiles ==> FileToTimeId(o) != FileToTimeId(f) {
      PendingWork.PendingSkipsCompleted(inputFiles, outputFiles, FileToTimeId, f);
    }
  }

  /** Once the output of a file is listed, that file is no longer pending. */
  lemma {:induction false} ProcessedFileNotPending(inputFiles: seq<string>, outputFiles: seq<string>, outDir: string, f: string)
    requires outDir + "/" + FileToTimeId(f) + ".nc" in outputFiles
    ensures f !in PendingWork.Pending(inputFiles, outputFiles, FileToTimeId)
  {
    TimeIdRoundTrip(f, outDir);
    if f in PendingWork.Pending(inputFiles, outputFiles, FileToTimeId) {
      PendingWork.PendingSkipsCompleted(inputFiles, outputFiles, FileToTimeId, f);
    }
  }
}
