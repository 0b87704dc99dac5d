/** The checks one policy applies to one file: the size check, done as soon
    as the policy matches, and the decisions taken in the image probe's
    callback. */
module Checks {
  import opened PolicyTable

  /** What the checker reads of a stream entry: its path, whether it is a
      regular file, and its size in bytes. */
  datatype File = File(path: string, isRegular: bool, size: nat)

  /** The answer of the image probe: an error carrying its message, or the
      measured width and height. */
  datatype Probe = Failed(message: string) | Measured(width: nat, height: nat)

  /** A warning, with the path of the file it is reported for. The dimension
      warnings quote the configured bounds as they are, absent ones included. */
  datatype Warning =
    | SizeTooBig(file: string, size: nat, limit: nat)
    | CannotOpen(file: string, message: string)
    | DimsTooBig(file: string, width: nat, height: nat, maxWidth: Option<nat>, maxHeight: Option<nat>)
    | DimsTooSmall(file: string, width: nat, height: nat, minWidth: Option<nat>, minHeight: Option<nat>)

  predicate Exceeds(x: nat, bound: Option<nat>) {
    Limited(bound) && x > bound.value
  }

  predicate FallsShort(x: nat, bound: Option<nat>) {
    Limited(bound) && x < bound.value
  }

  /** The size check of one matching policy. */
  function SizeCheck(file: File, p: Policy): (r: seq<Warning>)
    ensures r != [] <==> Limited(p.maxSize) && file.size >= p.maxSize.value
    ensures r != [] ==> r == [SizeTooBig(file.path, file.size, p.maxSize.value)]
  {
    if Limited(p.maxSize) && file.size >= p.maxSize.value then
      [SizeTooBig(file.path, file.size, p.maxSize.value)]
    else
      []
  }

  /** The warnings logged by the probe's callback for one image policy. */
  function ProbeCheck(file: File, p: Policy, outcome: Probe): (r: seq<Warning>)
    ensures forall i :: 0 <= i < |r| ==> r[i].file == file.path && !r[i].SizeTooBig?
    ensures outcome.Failed? ==> r == [CannotOpen(file.path, outcome.message)]
    ensures outcome.Measured? ==>
      && |r| <= 2
      && (forall i :: 0 <= i < |r| ==> r[i].DimsTooBig? || r[i].DimsTooSmall?)
      && (DimsTooBig(file.path, outcome.width, outcome.height, p.maxWidth, p.maxHeight) in r
          <==> Exceeds(outcome.width, p.maxWidth) || Exceeds(outcome.height, p.maxHeight))
      && (DimsTooSmall(file.path, outcome.width, outcome.height, p.minWidth, p.minHeight) in r
          <==> FallsShort(outcome.width, p.minWidth) || FallsShort(outcome.height, p.minHeight))
      && (forall i :: 0 <= i < |r| && r[i].DimsTooSmall? ==> i == |r| - 1)
      // nothing but the two warnings the bounds call for, each at most once
      && (forall i :: 0 <= i < |r| ==>
            r[i] in [DimsTooBig(file.path, outcome.width, outcome.height, p.maxWidth, p.maxHeight),
                     DimsTooSmall(file.path, outcome.width, outcome.height, p.minWidth, p.minHeight)])
    ensures forall i, j :: 0 <= i < j < |r| ==> r[i] != r[j]
  {
    match outcome
    case Failed(msg) => [CannotOpen(file.path, msg)]
    case Measured(w, h) =>
      var big := if Exceeds(w, p.maxWidth) || Exceeds(h, p.maxHeight)
        then [DimsTooBig(file.path, w, h, p.maxWidth, p.maxHeight)] else [];
      var small := if FallsShort(w, p.minWidth) || FallsShort(h, p.minHeight)
        then [DimsTooSmall(file.path, w, h, p.minWidth, p.minHeight)] else [];
      big + small
  }

  /** Everything one matching policy reports for a file, in the order the
      source issues it: the size warning, then (for an image policy) what the
      probe's callback decides. */
  function PolicyWarnings(file: File, p: Policy, outcome: Probe): (r: seq<Warning>)
    ensures |r| <= 3
    ensures forall i :: 0 <= i < |r| ==> r[i].file == file.path
    // the size warning: present exactly when the limit is set and reached
    ensures (exists i :: 0 <= i < |r| && r[i].SizeTooBig?)
      <==> Limited(p.maxSize) && file.size >= p.maxSize.value
    ensures forall i :: 0 <= i < |r| && r[i].SizeTooBig? ==>
      i == 0 && p.maxSize.Some? && r[i] == SizeTooBig(file.path, file.size, p.maxSize.value)
    // a policy without `image` never consults the probe
    ensures !p.image ==> forall i :: 0 <= i < |r| ==> r[i].SizeTooBig?
    // a failed probe gives one CannotOpen, last, and no dimension warning
    ensures p.image && outcome.Failed? ==>
      && |r| >= 1 && r[|r| - 1] == CannotOpen(file.path, outcome.message)
      && forall i :: 0 <= i < |r| - 1 ==> r[i].SizeTooBig?
    // a successful probe gives no CannotOpen
    ensures outcome.Measured? ==> forall i :: 0 <= i < |r| ==> !r[i].CannotOpen?
  {
    var r := SizeCheck(file, p) + (if p.image then ProbeCheck(file, p, outcome) else []);
    assert SizeCheck(file, p) != [] ==> r[0].SizeTooBig?;
    r
  }

  /** For a measured image, a matching image policy reports exactly the
      dimension warnings its bounds call for, beside the size warning. */
  lemma MeasuredImageWarnings(file: File, p: Policy, w: nat, h: nat)
    ensures var r := PolicyWarnings(file, p, Measured(w, h));
      p.image ==>
        && (DimsTooBig(file.path, w, h, p.maxWidth, p.maxHeight) in r
            <==> Exceeds(w, p.maxWidth) || Exceeds(h, p.maxHeight))
        && (DimsTooSmall(file.path, w, h, p.minWidth, p.minHeight) in r
            <==> FallsShort(w, p.minWidth) || FallsShort(h, p.minHeight))
        && forall i :: 0 <= i < |r| ==>
             r[i].SizeTooBig? || r[i] == DimsTooBig(file.path, w, h, p.maxWidth, p.maxHeight)
             || r[i] == DimsTooSmall(file.path, w, h, p.minWidth, p.minHeight)
  {
    if p.image {
      var size := SizeCheck(file, p);
      var later := ProbeCheck(file, p, Measured(w, h));
      assert PolicyWarnings(file, p, Measured(w, h)) == size + later;
    }
  }

  /** No policy reports the same warning twice for a file. */
  lemma NoRepeatedWarning(file: File, p: Policy, outcome: Probe)
    ensures var r := PolicyWarnings(file, p, outcome);
      forall i, j :: 0 <= i < j < |r| ==> r[i] != r[j]
  {
    var size := SizeCheck(file, p);
    var later := if p.image then ProbeCheck(file, p, outcome) else [];
    var r := PolicyWarnings(file, p, outcome);
    assert r == size + later;
    assert forall i :: |size| <= i < |r| ==> r[i] == later[i - |size|];
  }
}
