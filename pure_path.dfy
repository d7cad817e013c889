/**
 * The part of `pathlib.PurePosixPath` the source uses: the `.name` of a path,
 * its final component. Parsing a POSIX path splits it at `/` and drops empty
 * components (repeated or trailing slashes) and `.` components; `.name` is the
 * last component left, or the empty string when none is left (`""`, `"."`, `"/"`).
 */
module PurePath {
  import opened PyStrings

  /** A string that survives path parsing as a component of its own. */
  predicate IsComponent(s: string)
  {
    s != [] && s != "." && '/' !in s
  }

  /** The last component among `parts` that path parsing keeps. */
  function LastKept(parts: seq<string>): (name: string)
    requires forall k :: 0 <= k < |parts| ==> '/' !in parts[k]
    ensures name == [] || (IsComponent(name) && name in parts)
  {
    if parts == [] then []
    else
      var last := parts[|parts| - 1];
      if last == [] || last == "." then LastKept(parts[..|parts| - 1]) else last
  }

  /** `PurePosixPath(path).name`. */
  function Name(path: string): (name: string)
    ensures '/' !in name && name != "."
    ensures name == [] || name in Split(path, '/')
  {
    LastKept(Split(path, '/'))
  }

  /** A single component is its own name. */
  lemma {:induction false} NameOfComponent(name: string)
    requires IsComponent(name)
    ensures Name(name) == name
  {
    SplitWithoutSeparator(name, '/');
  }

  /** Only the final component matters: `Path(dir) / name` has name `name`, whatever `dir` is. */
  lemma {:induction false} NameIgnoresDirectory(dir: string, name: string)
    requires IsComponent(name)
    ensures Name(dir + "/" + name) == name
  {
    SplitAppend(dir, name, '/');
    SplitWithoutSeparator(name, '/');
    assert Split(dir + "/" + name, '/') == Split(dir, '/') + [name];
  }

  /** A part that path parsing drops: empty (from repeated or trailing slashes) or `.`. */
  predicate Dropped(part: string)
  {
    part == [] || part == "."
  }

  /** Every part after position `n` is dropped. */
  predicate DroppedAfter(parts: seq<string>, n: int)
  {
    forall k :: 0 <= k < |parts| && n < k ==> Dropped(parts[k])
  }

  /** `LastKept` is the last part not dropped: every part after it is dropped. */
  lemma {:induction false} LastKeptIsLast(parts: seq<string>)
    requires forall k :: 0 <= k < |parts| ==> '/' !in parts[k]
    ensures LastKept(parts) == [] ==> DroppedAfter(parts, -1)
    ensures LastKept(parts) != [] ==>
      exists n :: 0 <= n < |parts| && parts[n] == LastKept(parts) && DroppedAfter(parts, n)
  {
    if parts != [] {
      var last := |parts| - 1;
      var prefix := parts[..last];
      if Dropped(parts[last]) {
        LastKeptIsLast(prefix);
        var n := -1;
        if LastKept(parts) != [] {
          n :| 0 <= n < |prefix| && prefix[n] == LastKept(prefix) && DroppedAfter(prefix, n);
        }
        forall k | 0 <= k < |parts| && n < k ensures Dropped(parts[k]) {
          if k < last {
            assert parts[k] == prefix[k];
          }
        }
        assert DroppedAfter(parts, n);
      } else {
        assert DroppedAfter(parts, last);
      }
    }
  }

  /**
   * `PurePosixPath(path).name` is the last `/`-separated part that parsing
   * keeps: every part after it is empty or `.`, and when the name is empty
   * every part is.
   */
  lemma {:induction false} NameIsLastComponent(path: string)
    ensures Name(path) == [] ==> DroppedAfter(Split(path, '/'), -1)
    ensures Name(path) != [] ==>
      exists n :: 0 <= n < |Split(path, '/')| && Split(path, '/')[n] == Name(path) && DroppedAfter(Split(path, '/'), n)
  {
    LastKeptIsLast(Split(path, '/'));
  }

  /** Taking the name twice changes nothing. */
  lemma {:induction false} NameIdempotent(path: string)
    ensures Name(Name(path)) == Name(path)
  {
    var n := Name(path);
    SplitWithoutSeparator(n, '/');
    if n != [] {
      assert IsComponent(n);
    } else {
      assert Split(n, '/') == [[]];
      assert Split(n, '/')[..0] == [];
    }
  }
}
