/** What the checker reports for one file, as a specification: the warnings
    of every matching row of the table in force, in table order; and, beside
    it, the two phases in which the source actually emits them (size warnings
    while walking the table, image warnings when each probe answers). */
module Validator {
  import opened PolicyTable
  import opened Checks
  import opened Seqs

  /** The contribution of one row: nothing unless its pattern matches. */
  function EntryWarnings(e: Entry, file: File, outcome: Probe): seq<Warning> {
    if Matches(e.pattern, file.path) then PolicyWarnings(file, e.policy, outcome) else []
  }

  /** Each row's contribution, in table order; `probes[k]` is the answer of
      the probe issued for row `k` (consulted only when that row matches and
      is an image policy). */
  function Rows(table: seq<Entry>, file: File, probes: seq<Probe>): (rows: seq<seq<Warning>>)
    requires |probes| == |table|
    ensures |rows| == |table|
  {
    seq(|table|, k requires 0 <= k < |table| => EntryWarnings(table[k], file, probes[k]))
  }

  /** The warnings of a file under `table`: the rows' contributions, one
      after the other. */
  function Warnings(table: seq<Entry>, file: File, probes: seq<Probe>): (r: seq<Warning>)
    requires |probes| == |table|
    ensures |r| <= 3 * |table|
  {
    var rows := Rows(table, file, probes);
    assert forall k :: 0 <= k < |rows| ==> |rows[k]| <= 3;
    FlattenBound(rows, 3);
    Flatten(rows)
  }

  /** The warnings of one file: none in debug mode or for a non-regular
      entry, otherwise those of the whole table in force. */
  function FileWarnings(debug: bool, configured: Option<seq<Entry>>, file: File, probes: seq<Probe>): (r: seq<Warning>)
    requires |probes| == |ActiveTable(configured)|
    ensures debug || !file.isRegular ==> r == []
    ensures |r| <= 3 * |ActiveTable(configured)|
  {
    if debug || !file.isRegular then []
    else Warnings(ActiveTable(configured), file, probes)
  }

  /** Row `k` starts a probe: it matches and is an image policy. */
  predicate Probed(table: seq<Entry>, path: string, k: nat)
    requires k < |table|
  {
    Matches(table[k].pattern, path) && table[k].policy.image
  }

  /** What row `k` logs while the table is walked. */
  function SizeRow(table: seq<Entry>, file: File, k: nat): seq<Warning>
    requires k < |table|
  {
    if Matches(table[k].pattern, file.path) then SizeCheck(file, table[k].policy) else []
  }

  /** First phase: the size warnings of the first `n` rows, logged while the
      table is walked. */
  function Sizes(table: seq<Entry>, file: File, n: nat): (r: seq<Warning>)
    requires n <= |table|
    ensures |r| <= n
    ensures forall i :: 0 <= i < |r| ==>
      r[i].SizeTooBig? && r[i].file == file.path && r[i].size == file.size
    decreases n
  {
    if n == 0 then [] else Sizes(table, file, n - 1) + SizeRow(table, file, n - 1)
  }

  /** The rows among the first `n` for which a probe is started, in the
      order the probes are started. */
  function Requests(table: seq<Entry>, path: string, n: nat): (r: seq<nat>)
    requires n <= |table|
    ensures |r| <= n
    ensures forall i :: 0 <= i < |r| ==> r[i] < n
    decreases n
  {
    if n == 0 then []
    else Requests(table, path, n - 1) + (if Probed(table, path, n - 1) then [n - 1] else [])
  }

  /** Exactly the matching image rows are probed, each once, in table
      order. */
  lemma {:induction false} RequestsAreProbedRows(table: seq<Entry>, path: string, n: nat)
    requires n <= |table|
    ensures forall k: nat :: k in Requests(table, path, n) <==> k < n && Probed(table, path, k)
    ensures forall i, j :: 0 <= i < j < |Requests(table, path, n)| ==>
      Requests(table, path, n)[i] < Requests(table, path, n)[j]
  {
    if n > 0 {
      var earlier := Requests(table, path, n - 1);
      var added: seq<nat> := if Probed(table, path, n - 1) then [n - 1] else [];
      assert Requests(table, path, n) == earlier + added;
      RequestsAreProbedRows(table, path, n - 1);
      forall i | 0 <= i < |earlier|
        ensures earlier[i] < n - 1
      {
        assert earlier[i] in earlier;
      }
    }
  }

  /** What the callback of the probe issued for row `k` logs. */
  function Reply(table: seq<Entry>, file: File, probes: seq<Probe>, k: nat): seq<Warning> {
    if k < |table| && |probes| == |table| then ProbeCheck(file, table[k].policy, probes[k]) else []
  }

  function Replier(table: seq<Entry>, file: File, probes: seq<Probe>): nat -> seq<Warning> {
    (k: nat) => Reply(table, file, probes, k)
  }

  /** What row `k` leaves to its probe's callback. */
  function LaterRow(table: seq<Entry>, file: File, probes: seq<Probe>, k: nat): seq<Warning>
    requires k < |table|
  {
    if Probed(table, file.path, k) then Reply(table, file, probes, k) else []
  }

  /** Second phase: what the probe callbacks log when they run in the order
      `ks` (row indices). */
  function Callbacks(table: seq<Entry>, file: File, probes: seq<Probe>, ks: seq<nat>): seq<Warning> {
    Flatten(Map(Replier(table, file, probes), ks))
  }

  /** Every warning comes from a row whose pattern matches the path (rows
      that do not match contribute nothing), and names the file. */
  lemma WarningsFromMatchingRows(table: seq<Entry>, file: File, probes: seq<Probe>, w: Warning)
    requires |probes| == |table|
    requires w in Warnings(table, file, probes)
    ensures w.file == file.path
    ensures exists k :: (0 <= k < |table| && Matches(table[k].pattern, file.path) &&
      w in PolicyWarnings(file, table[k].policy, probes[k]))
  {
    FlattenMember(Rows(table, file, probes), w);
    var k :| 0 <= k < |table| && w in Rows(table, file, probes)[k];
    assert w in EntryWarnings(table[k], file, probes[k]);
  }

  /** The rows are applied independently and in table order: the warnings
      of a concatenated table are the concatenation of each part's. */
  lemma WarningsAppend(t1: seq<Entry>, t2: seq<Entry>, file: File, p1: seq<Probe>, p2: seq<Probe>)
    requires |t1| == |p1| && |t2| == |p2|
    ensures Warnings(t1 + t2, file, p1 + p2) == Warnings(t1, file, p1) + Warnings(t2, file, p2)
  {
    var r1, r2 := Rows(t1, file, p1), Rows(t2, file, p2);
    var r := Rows(t1 + t2, file, p1 + p2);
    forall k | 0 <= k < |r|
      ensures r[k] == (r1 + r2)[k]
    {
      if k < |t1| {
        assert (t1 + t2)[k] == t1[k] && (p1 + p2)[k] == p1[k];
      } else {
        assert (t1 + t2)[k] == t2[k - |t1|] && (p1 + p2)[k] == p2[k - |t1|];
      }
    }
    assert r == r1 + r2;
    FlattenAppend(r1, r2);
  }

  /** Where no matching row is an image policy, nothing is probed and only
      size warnings are reported. */
  lemma ImagelessRowsOnlySize(table: seq<Entry>, file: File, probes: seq<Probe>)
    requires |probes| == |table|
    requires forall k :: 0 <= k < |table| && Matches(table[k].pattern, file.path) ==> !table[k].policy.image
    ensures forall w :: w in Warnings(table, file, probes) ==> w.SizeTooBig?
  {
    forall w | w in Warnings(table, file, probes)
      ensures w.SizeTooBig?
    {
      WarningsFromMatchingRows(table, file, probes, w);
      var k :| 0 <= k < |table| && Matches(table[k].pattern, file.path)
        && w in PolicyWarnings(file, table[k].policy, probes[k]);
      var r := PolicyWarnings(file, table[k].policy, probes[k]);
      var i :| 0 <= i < |r| && r[i] == w;
    }
  }

  /** Inserting a row whose pattern does not match the path changes
      nothing, wherever it is inserted and whatever its probe would say. */
  lemma NonMatchingRowIgnored(t1: seq<Entry>, e: Entry, t2: seq<Entry>, file: File, p1: seq<Probe>, o: Probe, p2: seq<Probe>)
    requires |t1| == |p1| && |t2| == |p2|
    requires !Matches(e.pattern, file.path)
    ensures Warnings(t1 + [e] + t2, file, p1 + [o] + p2) == Warnings(t1 + t2, file, p1 + p2)
  {
    var single := Rows([e], file, [o]);
    assert single[0] == EntryWarnings(e, file, o) == [];
    assert single == [[]];
    FlattenOne<Warning>([]);
    WarningsAppend(t1, [e], file, p1, [o]);
    WarningsAppend(t1 + [e], t2, file, p1 + [o], p2);
    WarningsAppend(t1, t2, file, p1, p2);
    assert Warnings(t1 + [e], file, p1 + [o]) == Warnings(t1, file, p1);
  }

  /** One row splits into its size warning, logged at once, and what its
      probe's callback logs later, if a probe is issued for it. */
  lemma RowSplits(table: seq<Entry>, file: File, probes: seq<Probe>, k: nat)
    requires k < |table| == |probes|
    ensures Rows(table, file, probes)[k] == SizeRow(table, file, k) + LaterRow(table, file, probes, k)
  {
  }

  /** The two phases log, up to order, exactly the warnings of the first
      `n` rows of the table-order specification. */
  lemma {:induction false} PhasesCoverRows(table: seq<Entry>, file: File, probes: seq<Probe>, n: nat)
    requires n <= |table| == |probes|
    ensures multiset(Flatten(Rows(table, file, probes)[..n]))
         == multiset(Sizes(table, file, n) + Callbacks(table, file, probes, Requests(table, file.path, n)))
  {
    if n > 0 {
      var rows := Rows(table, file, probes);
      var rs := Requests(table, file.path, n - 1);
      var size := SizeRow(table, file, n - 1);
      var later := LaterRow(table, file, probes, n - 1);
      assert rows[..n] == rows[..n - 1] + [rows[n - 1]];
      FlattenAppend(rows[..n - 1], [rows[n - 1]]);
      FlattenOne(rows[n - 1]);
      RowSplits(table, file, probes, n - 1);
      PhasesCoverRows(table, file, probes, n - 1);
      CallbacksGrow(table, file, probes, n);
      MultisetStep(Flatten(rows[..n - 1]), rows[n - 1], size, later,
        Sizes(table, file, n - 1), Callbacks(table, file, probes, rs));
    }
  }

  lemma MultisetStep<T>(done: seq<T>, row: seq<T>, size: seq<T>, later: seq<T>, sizes: seq<T>, replies: seq<T>)
    requires row == size + later
    requires multiset(done) == multiset(sizes + replies)
    ensures multiset(done + row) == multiset((sizes + size) + (replies + later))
  {
  }

  /** Issuing the probe of row `n - 1` adds its callback's warnings to the
      second phase. */
  lemma CallbacksGrow(table: seq<Entry>, file: File, probes: seq<Probe>, n: nat)
    requires 0 < n <= |table| == |probes|
    ensures Callbacks(table, file, probes, Requests(table, file.path, n))
         == Callbacks(table, file, probes, Requests(table, file.path, n - 1))
            + LaterRow(table, file, probes, n - 1)
  {
    var rs := Requests(table, file.path, n - 1);
    var f := Replier(table, file, probes);
    if Probed(table, file.path, n - 1) {
      var issued: seq<nat> := [n - 1];
      assert Requests(table, file.path, n) == rs + issued;
      MapAppend(f, rs, issued);
      FlattenAppend(Map(f, rs), [Reply(table, file, probes, n - 1)]);
      FlattenOne(Reply(table, file, probes, n - 1));
    } else {
      assert Requests(table, file.path, n) == rs;
    }
  }

  /** Whatever order the probes of a file answer in, once all of them have
      answered the log holds, up to order, the table-order warnings. */
  lemma AnyCompletionOrder(table: seq<Entry>, file: File, probes: seq<Probe>, order: seq<nat>)
    requires |table| == |probes|
    requires multiset(order) == multiset(Requests(table, file.path, |table|))
    ensures multiset(Sizes(table, file, |table|) + Callbacks(table, file, probes, order))
         == multiset(Warnings(table, file, probes))
  {
    var rows := Rows(table, file, probes);
    var f := Replier(table, file, probes);
    var issued := Requests(table, file.path, |table|);
    assert rows[..|table|] == rows;
    PhasesCoverRows(table, file, probes, |table|);
    MapReorder(f, order, issued);
    FlattenReorder(Map(f, order), Map(f, issued));
  }

  /** A configured table is used as it is, never merged with the defaults:
      an empty one silences the checker. */
  lemma ConfiguredTableReplacesDefaults(table: seq<Entry>, file: File, probes: seq<Probe>)
    requires |probes| == |table| && file.isRegular
    ensures FileWarnings(false, Some(table), file, probes) == Warnings(table, file, probes)
    ensures table == [] ==> FileWarnings(false, Some(table), file, probes) == []
  {
  }

  /** In debug mode, and for an entry that is not a regular file, nothing
      is reported. */
  lemma SilentWhenSkipped(debug: bool, configured: Option<seq<Entry>>, file: File, probes: seq<Probe>)
    requires |probes| == |ActiveTable(configured)|
    requires debug || !file.isRegular
    ensures FileWarnings(debug, configured, file, probes) == []
  {
  }
}
