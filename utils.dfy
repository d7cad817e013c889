/**
 * utils.py: the time id carried in a NASA OB.DAAC file name, and the check
 * that a time id is a "%Y%m%dT%H%M%S" timestamp.
 *
 * An OB.DAAC name reads `<mission>.<YYYYMMDDTHHMMSS>.<level>...nc`; a file the
 * pipeline wrote reads `<YYYYMMDDTHHMMSS>.nc`. The id is the second dot field
 * of the former and the text before the dot of the latter.
 */
module Utils {
  import opened Optional
  import opened PyStrings
  import opened PurePath
  import opened Strptime

  /**
   * `file_to_time_id`: with more than one dot in the final path component,
   * its second dot field; otherwise the text before its first dot. The id
   * never contains a dot or a slash, and it is always one of the dot fields.
   */
  function FileToTimeId(filename: string): (timeId: string)
    ensures '.' !in timeId && '/' !in timeId
    ensures timeId in Split(Name(filename), '.')
  {
    var name := Name(filename);
    var fields := Split(name, '.');
    if Occurrences(name, '.') > 1 then fields[1] else fields[0]
  }

  /** Only the final path component matters. */
  lemma {:induction false} TimeIdUsesOnlyName(path: string)
    ensures FileToTimeId(path) == FileToTimeId(Name(path))
  {
    NameIdempotent(path);
  }

  /** The directory a file sits in never changes its id. */
  lemma {:induction false} TimeIdIgnoresDirectory(dir: string, name: string)
    requires IsComponent(name)
    ensures FileToTimeId(dir + "/" + name) == FileToTimeId(name)
  {
    NameIgnoresDirectory(dir, name);
    NameOfComponent(name);
  }

  /** A name without a dot is its own id. */
  lemma {:induction false} TimeIdWithoutDot(name: string)
    requires '/' !in name && '.' !in name
    ensures FileToTimeId(name) == name
  {
    if name != [] {
      NameOfComponent(name);
    }
    SplitWithoutSeparator(name, '.');
  }

  /** `<stem>.<ext>`: the id is the stem. */
  lemma {:induction false} TimeIdOneDot(stem: string, ext: string)
    requires '/' !in stem && '/' !in ext && '.' !in stem && '.' !in ext
    ensures FileToTimeId(stem + "." + ext) == stem
  {
    var name := stem + "." + ext;
    SplitWithoutSeparator(stem, '.');
    SplitWithoutSeparator(ext, '.');
    SplitAppend(stem, ext, '.');
    if name == "." {
      assert stem == [];
    } else {
      NameOfComponent(name);
    }
  }

  /** `<mission>.<stamp>.<rest>`, whatever `rest` holds: the id is the stamp. */
  lemma {:induction false} TimeIdManyDots(mission: string, stamp: string, rest: string)
    requires '/' !in mission && '/' !in stamp && '/' !in rest
    requires '.' !in mission && '.' !in stamp
    ensures FileToTimeId(mission + "." + stamp + "." + rest) == stamp
  {
    var name := mission + "." + stamp + "." + rest;
    assert name == mission + "." + (stamp + "." + rest);
    assert IsComponent(name) by {
      assert name[|mission|] == '.' && |name| >= 2;
    }
    NameOfComponent(name);
    SplitWithoutSeparator(mission, '.');
    SplitWithoutSeparator(stamp, '.');
    SplitAppend(stamp, rest, '.');
    SplitAppend(mission, stamp + "." + rest, '.');
    var fields := Split(name, '.');
    assert fields == [mission] + ([stamp] + Split(rest, '.'));
    assert Occurrences(name, '.') > 1;
  }

  /** The bare name `<id>.nc` has that id. */
  lemma {:induction false} StemId(id: string)
    requires '.' !in id && '/' !in id
    ensures FileToTimeId(id + ".nc") == id
  {
    TimeIdOneDot(id, "nc");
    assert id + ".nc" == id + "." + "nc";
  }

  /** The output name `<outDir>/<id>.nc` written for an id without dots or slashes has that id. */
  lemma {:induction false} OutputNameId(outDir: string, id: string)
    requires '.' !in id && '/' !in id
    ensures FileToTimeId(outDir + "/" + id + ".nc") == id
  {
    StemId(id);
    assert IsComponent(id + ".nc") by {
      assert (id + ".nc")[|id| + 1] == 'n';
    }
    assert outDir + "/" + id + ".nc" == outDir + "/" + (id + ".nc");
    TimeIdIgnoresDirectory(outDir, id + ".nc");
  }

  /**
   * Round trip: the output `<id>.nc` the pipeline writes for a file, in any
   * directory, has the same id as the file, so it is recognised as done.
   */
  lemma {:induction false} TimeIdRoundTrip(file: string, outDir: string)
    ensures FileToTimeId(FileToTimeId(file) + ".nc") == FileToTimeId(file)
    ensures FileToTimeId(outDir + "/" + FileToTimeId(file) + ".nc") == FileToTimeId(file)
  {
    var id := FileToTimeId(file);
    StemId(id);
    OutputNameId(outDir, id);
  }

  /** `list_time_stamps_from_folder` once the folder is listed: one id per file, in listing order. */
  function ListTimeStamps(files: seq<string>): (stamps: seq<string>)
    ensures |stamps| == |files|
    ensures forall k :: 0 <= k < |files| ==> stamps[k] == FileToTimeId(files[k])
  {
    seq(|files|, k requires 0 <= k < |files| => FileToTimeId(files[k]))
  }

  /**
   * `is_valid_iso_timestamp`: true exactly when `strptime` does not raise; it
   * never raises itself. No text longer than YYYYMMDDTHHMMSS passes.
   */
  predicate IsValidIsoTimestamp(isoTime: string): (valid: bool)
    ensures valid ==> |isoTime| <= 15
  {
    ParseLength(isoTime);
    Parse(isoTime).Ok?
  }

  /**
   * An id of the shape 8 digits, `T`, 6 digits is valid exactly when its
   * fields form a calendar date and a time of day.
   */
  lemma {:induction false} IsValidIsoTimestampCanonical(isoTime: string)
    requires CanonicalShape(isoTime)
    ensures IsValidIsoTimestamp(isoTime) <==> ValidDateTime(FieldsOf(isoTime))
  {
    ParseCanonical(isoTime);
  }

  /**
   * `timestamp_to_datetime`: `strptime` applied to the file's id, with the
   * same format as `is_valid_iso_timestamp`, so it raises exactly when that
   * check fails.
   */
  function TimestampToDatetime(file: string): (r: Result<DateTime, ParseError>)
    ensures r.Ok? <==> IsValidIsoTimestamp(FileToTimeId(file))
    ensures r.Ok? ==> ValidDateTime(r.value)
  {
    Parse(FileToTimeId(file))
  }

  /** Joining regroups: the path is the directory joined with the whole name. */
  lemma {:induction false} NestedPath(dir: string, mission: string, stamp: string, rest: string)
    ensures dir + "/" + mission + "." + stamp + "." + rest == dir + "/" + (mission + "." + stamp + "." + rest)
  {
  }

  /** The id of `<dir>/<mission>.<stamp>.<rest>` is `stamp`, whatever the directory. */
  lemma {:induction false} ObdaacNameId(dir: string, mission: string, stamp: string, rest: string)
    requires '/' !in mission && '/' !in stamp && '/' !in rest
    requires '.' !in mission && '.' !in stamp
    ensures FileToTimeId(dir + "/" + mission + "." + stamp + "." + rest) == stamp
  {
    var name := mission + "." + stamp + "." + rest;
    TimeIdManyDots(mission, stamp, rest);
    assert IsComponent(name) by {
      assert name[|mission|] == '.';
    }
    TimeIdIgnoresDirectory(dir, name);
    NestedPath(dir, mission, stamp, rest);
  }

  /** The rendering YYYYMMDDTHHMMSS holds neither a dot nor a slash. */
  lemma {:induction false} FormatHasNoSeparators(dt: DateTime)
    requires ValidDateTime(dt)
    ensures '.' !in Format(dt) && '/' !in Format(dt)
  {
    var stamp := Format(dt);
    FormatSpellsFields(dt);
    forall m | 0 <= m < 15 ensures stamp[m] != '.' && stamp[m] != '/' {
      if m != 8 {
        assert IsDigit(stamp[m]);
      }
    }
  }

  /** An OB.DAAC name `<dir>/<mission>.<YYYYMMDDTHHMMSS>.<rest>` yields the date-time it carries. */
  lemma {:induction false} TimestampOfObdaacName(dir: string, mission: string, dt: DateTime, rest: string)
    requires ValidDateTime(dt)
    requires '/' !in mission && '.' !in mission && '/' !in rest
    ensures TimestampToDatetime(dir + "/" + mission + "." + Format(dt) + "." + rest) == Ok(dt)
  {
    FormatHasNoSeparators(dt);
    ObdaacNameId(dir, mission, Format(dt), rest);
    ParseFormat(dt);
  }
}
