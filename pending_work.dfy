/**
 * `remove_files_already_done`, shared by both preprocessing scripts: index
 * the input files by time id in a dict (a later file with the same id
 * overwrites the earlier one but keeps its position), delete every id that
 * already has an output file, and return the remaining files in dict order.
 *
 * The directory listings are parameters and the id function is a parameter,
 * so the same algorithm serves the CYGNSS and the OB.DAAC variants.
 */
module PendingWork {

  /** The id of every file, in listing order (the list comprehension over the outputs). */
  function Ids(files: seq<string>, idOf: string -> string): (ids: seq<string>)
    ensures |ids| == |files|
    ensures forall k :: 0 <= k < |files| ==> ids[k] == idOf(files[k])
  {
    seq(|files|, k requires 0 <= k < |files| => idOf(files[k]))
  }

  predicate Distinct(xs: seq<string>)
  {
    forall i, j :: 0 <= i < j < |xs| ==> xs[i] != xs[j]
  }

  /** The key order of a dict filled from `xs`: each key where it first occurs. */
  function FirstOccurrences(xs: seq<string>): (keys: seq<string>)
    ensures Distinct(keys)
    ensures forall x :: x in keys <==> x in xs
  {
    if xs == [] then []
    else
      var keys := FirstOccurrences(xs[..|xs| - 1]);
      var x := xs[|xs| - 1];
      assert xs == xs[..|xs| - 1] + [x];
      if x in keys then keys else keys + [x]
  }

  /** The position of the first occurrence of `x` in `xs`. */
  function IndexOf(xs: seq<string>, x: string): (i: nat)
    requires x in xs
    ensures i < |xs| && xs[i] == x
    ensures forall k :: 0 <= k < i ==> xs[k] != x
  {
    if xs[0] == x then 0 else 1 + IndexOf(xs[1..], x)
  }

  /** Extending a list does not move the first occurrence of an element already in it. */
  lemma {:induction false} IndexOfPrefix(xs: seq<string>, y: string, x: string)
    requires x in xs
    ensures IndexOf(xs + [y], x) == IndexOf(xs, x)
  {
    assert (xs + [y])[IndexOf(xs, x)] == x;
  }

  /** `keys` are listed in the order of their first occurrences in `xs`. */
  predicate InFirstOccurrenceOrder(xs: seq<string>, keys: seq<string>)
    requires forall k :: k in keys ==> k in xs
  {
    forall i, j :: 0 <= i < j < |keys| ==> IndexOf(xs, keys[i]) < IndexOf(xs, keys[j])
  }

  /**
   * The dict's key order: keys are listed in the order their ids first
   * occur in `xs`, so a later duplicate never moves its key.
   */
  lemma {:induction false} FirstOccurrencesOrder(xs: seq<string>)
    ensures InFirstOccurrenceOrder(xs, FirstOccurrences(xs))
  {
    if xs != [] {
      var prefix := xs[..|xs| - 1];
      var x := xs[|xs| - 1];
      assert xs == prefix + [x];
      FirstOccurrencesOrder(prefix);
      var old_keys := FirstOccurrences(prefix);
      var keys := FirstOccurrences(xs);
      forall k | k in old_keys ensures IndexOf(xs, k) == IndexOf(prefix, k) && IndexOf(xs, k) < |prefix| {
        IndexOfPrefix(prefix, x, k);
      }
      if x !in old_keys {
        assert IndexOf(xs, x) == |prefix|;
        assert keys == old_keys + [x];
        forall i, j | 0 <= i < j < |keys| ensures IndexOf(xs, keys[i]) < IndexOf(xs, keys[j]) {
          assert keys[i] == old_keys[i] && old_keys[i] in old_keys;
          if j < |old_keys| {
            assert keys[j] == old_keys[j] && old_keys[j] in old_keys;
          } else {
            assert keys[j] == x;
          }
        }
      }
    }
  }

  /** `xs` without the elements listed in `drop`, order kept. */
  function Without(xs: seq<string>, drop: seq<string>): (ys: seq<string>)
    ensures forall y :: y in ys <==> y in xs && y !in drop
  {
    if xs == [] then []
    else
      var tail := Without(xs[1..], drop);
      assert xs == [xs[0]] + xs[1..];
      if xs[0] in drop then tail else [xs[0]] + tail
  }

  /** Filtering keeps distinct elements distinct. */
  lemma {:induction false} WithoutDistinct(xs: seq<string>, drop: seq<string>)
    requires Distinct(xs)
    ensures Distinct(Without(xs, drop))
  {
    if xs != [] {
      assert Distinct(xs[1..]);
      WithoutDistinct(xs[1..], drop);
      assert xs[0] !in xs[1..];
    }
  }

  /** In an ordered key list the first key comes before every later one. */
  lemma {:induction false} HeadFirst(xs: seq<string>, keys: seq<string>, k: string)
    requires forall k :: k in keys ==> k in xs
    requires InFirstOccurrenceOrder(xs, keys)
    requires keys != [] && k in keys[1..]
    ensures IndexOf(xs, keys[0]) < IndexOf(xs, k)
  {
    var m :| 0 <= m < |keys[1..]| && keys[1..][m] == k;
    assert keys[m + 1] == k;
  }

  /** Dropping the first key keeps the rest ordered. */
  lemma {:induction false} TailOrdered(xs: seq<string>, keys: seq<string>)
    requires forall k :: k in keys ==> k in xs
    requires InFirstOccurrenceOrder(xs, keys) && keys != []
    ensures forall k :: k in keys[1..] ==> k in xs
    ensures InFirstOccurrenceOrder(xs, keys[1..])
  {
    var tail := keys[1..];
    assert forall k :: k in tail ==> k in keys;
    forall i, j | 0 <= i < j < |tail| ensures IndexOf(xs, tail[i]) < IndexOf(xs, tail[j]) {
      assert tail[i] == keys[i + 1] && tail[j] == keys[j + 1];
    }
  }

  /** A key placed before an ordered list of later keys keeps the list ordered. */
  lemma {:induction false} ConsOrdered(xs: seq<string>, k: string, rest: seq<string>)
    requires k in xs && forall r :: r in rest ==> r in xs
    requires InFirstOccurrenceOrder(xs, rest)
    requires forall r :: r in rest ==> IndexOf(xs, k) < IndexOf(xs, r)
    ensures forall r :: r in [k] + rest ==> r in xs
    ensures InFirstOccurrenceOrder(xs, [k] + rest)
  {
    var ys := [k] + rest;
    forall i, j | 0 <= i < j < |ys| ensures IndexOf(xs, ys[i]) < IndexOf(xs, ys[j]) {
      assert ys[j] == rest[j - 1] && rest[j - 1] in rest;
      if i > 0 {
        assert ys[i] == rest[i - 1];
      }
    }
  }

  /** Deleting keys leaves the survivors in their order. */
  lemma {:induction false} WithoutOrdered(xs: seq<string>, keys: seq<string>, drop: seq<string>)
    requires forall k :: k in keys ==> k in xs
    requires InFirstOccurrenceOrder(xs, keys)
    ensures InFirstOccurrenceOrder(xs, Without(keys, drop))
  {
    if keys != [] {
      var tail := keys[1..];
      TailOrdered(xs, keys);
      WithoutOrdered(xs, tail, drop);
      var rest := Without(tail, drop);
      if keys[0] !in drop {
        forall r | r in rest ensures IndexOf(xs, keys[0]) < IndexOf(xs, r) {
          HeadFirst(xs, keys, r);
        }
        ConsOrdered(xs, keys[0], rest);
      }
    }
  }

  /**
   * The keys that survive the deletions keep their first-occurrence order,
   * so the returned files come in the order their ids were first listed.
   */
  lemma {:induction false} PendingKeyOrder(inputs: seq<string>, outputs: seq<string>, idOf: string -> string)
    ensures InFirstOccurrenceOrder(Ids(inputs, idOf), Without(FirstOccurrences(Ids(inputs, idOf)), Ids(outputs, idOf)))
  {
    FirstOccurrencesOrder(Ids(inputs, idOf));
    WithoutOrdered(Ids(inputs, idOf), FirstOccurrences(Ids(inputs, idOf)), Ids(outputs, idOf));
  }

  /**
   * The dict comprehension `{idOf(f): f for f in files}` as a map: one entry
   * per id that occurs, holding a file with that id.
   */
  function Table(files: seq<string>, idOf: string -> string): (t: map<string, string>)
    ensures forall k :: k in t <==> k in Ids(files, idOf)
    ensures forall k :: k in t ==> t[k] in files && idOf(t[k]) == k
  {
    if files == [] then map[]
    else
      var f := files[|files| - 1];
      var prefix := files[..|files| - 1];
      assert files == prefix + [f];
      assert Ids(files, idOf) == Ids(prefix, idOf) + [idOf(f)];
      Table(prefix, idOf)[idOf(f) := f]
  }

  /** `list(d.values())` for a dict with key order `order` and contents `table`. */
  function Values(order: seq<string>, table: map<string, string>): (values: seq<string>)
    requires forall k :: k in order ==> k in table
    ensures |values| == |order|
    ensures forall i :: 0 <= i < |order| ==> values[i] == table[order[i]]
  {
    seq(|order|, i requires 0 <= i < |order| => table[order[i]])
  }

  /** Two tables that agree on the keys listed give the same values. */
  lemma {:induction false} ValuesAgree(order: seq<string>, table: map<string, string>, table': map<string, string>)
    requires forall k :: k in order ==> k in table && k in table' && table[k] == table'[k]
    ensures Values(order, table) == Values(order, table')
  {
  }

  /** What is left to do: the dict's surviving values, in key order. */
  function Pending(inputs: seq<string>, outputs: seq<string>, idOf: string -> string): (pending: seq<string>)
    ensures |pending| <= |inputs|
    ensures forall f :: f in pending ==> f in inputs
  {
    var table := Table(inputs, idOf);
    var keys := Without(FirstOccurrences(Ids(inputs, idOf)), Ids(outputs, idOf));
    var pending := Values(keys, table);
    assert |pending| <= |inputs| by {
      WithoutDistinct(FirstOccurrences(Ids(inputs, idOf)), Ids(outputs, idOf));
      DistinctBound(keys, Ids(inputs, idOf));
    }
    pending
  }

  /** A list of distinct elements drawn from `xs` is no longer than `xs`. */
  lemma {:induction false} DistinctBound(keys: seq<string>, xs: seq<string>)
    requires Distinct(keys)
    requires forall k :: k in keys ==> k in xs
    ensures |keys| <= |xs|
  {
    if keys != [] {
      var k := keys[|keys| - 1];
      var prefix := keys[..|keys| - 1];
      assert keys == prefix + [k];
      assert k in keys;
      var n :| 0 <= n < |xs| && xs[n] == k;
      var rest := xs[..n] + xs[n + 1..];
      assert xs == xs[..n] + [k] + xs[n + 1..];
      forall x | x in prefix ensures x in rest {
        assert x in xs && x != k;
      }
      DistinctBound(prefix, rest);
    }
  }

  /** The key at position `i` of the pending keys, and the file the pending list holds for it. */
  lemma {:induction false} PendingEntry(inputs: seq<string>, outputs: seq<string>, idOf: string -> string, i: nat)
    requires i < |Pending(inputs, outputs, idOf)|
    ensures var keys := Without(FirstOccurrences(Ids(inputs, idOf)), Ids(outputs, idOf));
      i < |keys| && keys[i] in Table(inputs, idOf)
      && Pending(inputs, outputs, idOf)[i] == Table(inputs, idOf)[keys[i]]
      && idOf(Pending(inputs, outputs, idOf)[i]) == keys[i]
  {
  }

  /**
   * The returned files come in the order their ids first occur in the input
   * listing, which is the order Python keeps the dict's keys in.
   */
  lemma {:induction false} PendingFirstOccurrenceOrder(inputs: seq<string>, outputs: seq<string>, idOf: string -> string)
    ensures var pending, ids := Pending(inputs, outputs, idOf), Ids(inputs, idOf);
      forall i, j :: 0 <= i < j < |pending| ==>
        idOf(pending[i]) in ids && idOf(pending[j]) in ids &&
        IndexOf(ids, idOf(pending[i])) < IndexOf(ids, idOf(pending[j]))
  {
    var pending, ids := Pending(inputs, outputs, idOf), Ids(inputs, idOf);
    var keys := Without(FirstOccurrences(ids), Ids(outputs, idOf));
    PendingKeyOrder(inputs, outputs, idOf);
    forall i, j | 0 <= i < j < |pending|
      ensures idOf(pending[i]) in ids && idOf(pending[j]) in ids
      ensures IndexOf(ids, idOf(pending[i])) < IndexOf(ids, idOf(pending[j]))
    {
      PendingEntry(inputs, outputs, idOf, i);
      PendingEntry(inputs, outputs, idOf, j);
      assert keys[i] in keys && keys[j] in keys;
    }
  }

  /** No returned file has the id of a file already in the output listing. */
  lemma {:induction false} PendingSkipsCompleted(inputs: seq<string>, outputs: seq<string>, idOf: string -> string, f: string)
    requires f in Pending(inputs, outputs, idOf)
    ensures forall o :: o in outputs ==> idOf(o) != idOf(f)
  {
    var pending := Pending(inputs, outputs, idOf);
    var i :| 0 <= i < |pending| && pending[i] == f;
    PendingEntry(inputs, outputs, idOf, i);
    forall o | o in outputs ensures idOf(o) != idOf(f) {
      var n :| 0 <= n < |outputs| && outputs[n] == o;
      assert Ids(outputs, idOf)[n] == idOf(o);
    }
  }

  /** At most one returned file per id. */
  lemma {:induction false} PendingDistinctIds(inputs: seq<string>, outputs: seq<string>, idOf: string -> string)
    ensures var pending := Pending(inputs, outputs, idOf);
      forall i, j :: 0 <= i < j < |pending| ==> idOf(pending[i]) != idOf(pending[j])
  {
    var pending := Pending(inputs, outputs, idOf);
    WithoutDistinct(FirstOccurrences(Ids(inputs, idOf)), Ids(outputs, idOf));
    forall i, j | 0 <= i < j < |pending| ensures idOf(pending[i]) != idOf(pending[j]) {
      PendingEntry(inputs, outputs, idOf, i);
      PendingEntry(inputs, outputs, idOf, j);
    }
  }

  /** Every input id that has no output yet is represented in the result. */
  lemma {:induction false} PendingCoversOpenIds(inputs: seq<string>, outputs: seq<string>, idOf: string -> string, f: string)
    requires f in inputs
    requires forall o :: o in outputs ==> idOf(o) != idOf(f)
    ensures exists g :: g in Pending(inputs, outputs, idOf) && idOf(g) == idOf(f)
  {
    var n :| 0 <= n < |inputs| && inputs[n] == f;
    assert Ids(inputs, idOf)[n] == idOf(f);
    var keys := Without(FirstOccurrences(Ids(inputs, idOf)), Ids(outputs, idOf));
    assert idOf(f) in keys;
    var i :| 0 <= i < |keys| && keys[i] == idOf(f);
    PendingEntry(inputs, outputs, idOf, i);
  }

  /** Of several inputs sharing an id, the last-listed one is the file the dict keeps. */
  lemma {:induction false} TableKeepsLast(files: seq<string>, idOf: string -> string, j: nat)
    requires j < |files|
    requires forall i :: j < i < |files| ==> idOf(files[i]) != idOf(files[j])
    ensures idOf(files[j]) in Table(files, idOf)
    ensures Table(files, idOf)[idOf(files[j])] == files[j]
  {
    var prefix := files[..|files| - 1];
    if j < |files| - 1 {
      assert prefix[j] == files[j];
      TableKeepsLast(prefix, idOf, j);
    }
  }

  /** The last-listed input of an id that has no output yet is returned. */
  lemma {:induction false} PendingKeepsLast(inputs: seq<string>, outputs: seq<string>, idOf: string -> string, j: nat)
    requires j < |inputs|
    requires forall i :: j < i < |inputs| ==> idOf(inputs[i]) != idOf(inputs[j])
    requires forall o :: o in outputs ==> idOf(o) != idOf(inputs[j])
    ensures inputs[j] in Pending(inputs, outputs, idOf)
  {
    PendingCoversOpenIds(inputs, outputs, idOf, inputs[j]);
    var g :| g in Pending(inputs, outputs, idOf) && idOf(g) == idOf(inputs[j]);
    var pending := Pending(inputs, outputs, idOf);
    var i :| 0 <= i < |pending| && pending[i] == g;
    PendingEntry(inputs, outputs, idOf, i);
    TableKeepsLast(inputs, idOf, j);
  }

  lemma {:induction false} WithoutAppend(xs: seq<string>, drop: seq<string>, id: string)
    ensures Without(xs, drop + [id]) == Without(Without(xs, drop), [id])
  {
    if xs != [] {
      WithoutAppend(xs[1..], drop, id);
    }
  }

  lemma {:induction false} WithoutNothing(xs: seq<string>)
    ensures Without(xs, []) == xs
  {
    if xs != [] {
      WithoutNothing(xs[1..]);
      assert xs == [xs[0]] + xs[1..];
    }
  }

  lemma {:induction false} WithoutAbsent(xs: seq<string>, id: string)
    requires id !in xs
    ensures Without(xs, [id]) == xs
  {
    if xs != [] {
      assert xs[0] in xs && id !in xs[1..];
      WithoutAbsent(xs[1..], id);
      assert xs == [xs[0]] + xs[1..];
    }
  }

  /** One `del` of the loop keeps the dict equal to the filtered comprehension. */
  lemma {:induction false} DeleteStep(keys: seq<string>, done: seq<string>, id: string,
                   order: seq<string>, table: map<string, string>, full: map<string, string>)
    requires order == Without(keys, done)
    requires forall k :: k in order ==> k in table
    requires forall k :: k in table ==> k in full && table[k] == full[k]
    ensures id in table ==> Without(order, [id]) == Without(keys, done + [id])
    ensures id in table ==> forall k :: k in Without(order, [id]) ==> k in table - {id}
    ensures id !in table ==> order == Without(keys, done + [id])
  {
    WithoutAppend(keys, done, id);
    if id !in table {
      WithoutAbsent(order, id);
    }
  }

  /**
   * The deletion loop: `del d[id]` for every completed id the dict still
   * holds. The dict is its key order `order` and its contents `table`.
   */
  method DeleteCompleted(order: seq<string>, table: map<string, string>, completedIds: seq<string>)
    returns (order': seq<string>, table': map<string, string>)
    requires forall k :: k in order ==> k in table
    ensures order' == Without(order, completedIds)
    ensures forall k :: k in order' ==> k in table' && k in table && table'[k] == table[k]
  {
    order', table' := order, table;
    var j := 0;
    assert completedIds[..0] == [];
    WithoutNothing(order);
    while j < |completedIds|
      invariant 0 <= j <= |completedIds|
      invariant order' == Without(order, completedIds[..j])
      invariant forall k :: k in order' ==> k in table'
      invariant forall k :: k in table' ==> k in table && table'[k] == table[k]
    {
      var id := completedIds[j];
      assert completedIds[..j + 1] == completedIds[..j] + [id];
      DeleteStep(order, completedIds[..j], id, order', table', table);
      if id in table' {
        table' := table' - {id};
        order' := Without(order', [id]);
      }
      j := j + 1;
    }
    assert completedIds[..j] == completedIds;
  }

  /**
   * The script's algorithm: build the dict from the inputs, delete the
   * completed ids, return the values.
   */
  method RemoveFilesAlreadyDone(inputs: seq<string>, outputs: seq<string>, idOf: string -> string)
    returns (pending: seq<string>)
    ensures pending == Pending(inputs, outputs, idOf)
  {
    // The dict comprehension: keys in first-occurrence order, last file per key.
    var order := FirstOccurrences(Ids(inputs, idOf));
    var table := Table(inputs, idOf);
    var completedIds := Ids(outputs, idOf);
    var order', table' := DeleteCompleted(order, table, completedIds);
    pending := Values(order', table');
    ValuesAgree(order', table', table);
  }
}
