/** The checker as the build runs it: a console that warnings are written
    to, the tap callback run for each entry of the asset stream, and the
    callback of one image probe. The tap callback logs the size warnings at
    once and only starts the probes; each probe's callback logs its own
    warnings later, in whatever order the probes answer. */
module Tap {
  import opened PolicyTable
  import opened Checks
  import opened Validator

  /** The output sink of `warn`: every warning written, in order. */
  class Console {
    var log: seq<Warning>

    constructor ()
      ensures log == []
    {
      log := [];
    }

    method Warn(w: Warning)
      modifies this
      ensures log == old(log) + [w]
    {
      log := log + [w];
    }
  }

  /** The task's treatment of one stream entry. In debug mode, and for an
      entry that is not a regular file, nothing is logged and nothing is
      probed (the entry passes through unchanged). Otherwise every row of the
      table in force is tried in order: a matching row logs its size warning
      at once and, if it is an image policy, starts a probe. The result lists
      the rows whose probes were started, in the order they were started. */
  method CheckFile(console: Console, debug: bool, configured: Option<seq<Entry>>, file: File)
    returns (pending: seq<nat>)
    modifies console
    ensures debug || !file.isRegular ==> console.log == old(console.log) && pending == []
    ensures !debug && file.isRegular ==>
      var table := ActiveTable(configured);
      && console.log == old(console.log) + Sizes(table, file, |table|)
      && pending == Requests(table, file.path, |table|)
  {
    pending := [];
    if debug || !file.isRegular {
      return;
    }
    var actions := ActiveTable(configured);
    var i: nat := 0;
    while i < |actions|
      invariant 0 <= i <= |actions|
      invariant console.log == old(console.log) + Sizes(actions, file, i)
      invariant pending == Requests(actions, file.path, i)
    {
      var probe := CheckRow(console, actions, file, i);
      if probe {
        pending := pending + [i];
      }
      assert Sizes(actions, file, i + 1) == Sizes(actions, file, i) + SizeRow(actions, file, i);
      i := i + 1;
    }
  }

  /** One turn of the walk over the table: if row `i` matches, log its size
      warning and say whether its probe is to be started. */
  method CheckRow(console: Console, actions: seq<Entry>, file: File, i: nat) returns (probe: bool)
    requires i < |actions|
    modifies console
    ensures console.log == old(console.log) + SizeRow(actions, file, i)
    ensures probe == Probed(actions, file.path, i)
  {
    var options := actions[i].policy;
    probe := false;
    if Matches(actions[i].pattern, file.path) {
      if Limited(options.maxSize) && file.size >= options.maxSize.value {
        console.Warn(SizeTooBig(file.path, file.size, options.maxSize.value));
      }
      probe := options.image;
    }
  }

  /** The callback of a probe started for a policy `options`: it logs one
      warning on failure, otherwise the dimension warnings that apply. */
  method Deliver(console: Console, file: File, options: Policy, outcome: Probe)
    modifies console
    ensures console.log == old(console.log) + ProbeCheck(file, options, outcome)
  {
    match outcome
    case Failed(msg) =>
      console.Warn(CannotOpen(file.path, msg));
    case Measured(width, height) =>
      if Exceeds(width, options.maxWidth) || Exceeds(height, options.maxHeight) {
        console.Warn(DimsTooBig(file.path, width, height, options.maxWidth, options.maxHeight));
      }
      if FallsShort(width, options.minWidth) || FallsShort(height, options.minHeight) {
        console.Warn(DimsTooSmall(file.path, width, height, options.minWidth, options.minHeight));
      }
  }
}
