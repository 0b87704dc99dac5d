/** What the built-in table implies for the files it meets: only paths that
    end in an image extension are probed, so svg, video and audio files get
    size warnings and nothing else. */
module Defaults {
  import opened PolicyTable
  import opened Checks
  import opened Validator
  import opened Seqs

  /** With the defaults a probe is started for the image row only, and only
      when the path ends in `.jpg`, `.jpeg` or `.png`. */
  lemma DefaultProbes(path: string)
    ensures Requests(DefaultTable, path, 4) == (if Matches(ImagePattern, path) then [0] else [])
  {
  }

  /** A path the image row does not match gets, with the defaults, no probe
      and no warning other than size warnings. */
  lemma NonImagesOnlySizeChecked(file: File, probes: seq<Probe>)
    requires |probes| == |DefaultTable|
    requires !Matches(ImagePattern, file.path)
    ensures Requests(DefaultTable, file.path, |DefaultTable|) == []
    ensures forall w :: w in Warnings(DefaultTable, file, probes) ==> w.SizeTooBig?
  {
    DefaultProbes(file.path);
    assert DefaultTable[0].pattern == ImagePattern;
    ImagelessRowsOnlySize(DefaultTable, file, probes);
  }

  /** Files ending in the svg, video or audio extensions of the defaults are
      never probed and get size warnings only. */
  lemma OtherTypesOnlySizeChecked(ext: string, file: File, probes: seq<Probe>)
    requires ext in [".svg", ".mp4", ".m4v", ".ogv", ".mp3", ".ogg", ".aac", ".m4a"]
    requires IsSuffix(ext, file.path)
    requires |probes| == |DefaultTable|
    ensures Requests(DefaultTable, file.path, |DefaultTable|) == []
    ensures forall w :: w in Warnings(DefaultTable, file, probes) ==> w.SizeTooBig?
  {
    OtherExtensionsAreNotImages(ext, file.path);
    NonImagesOnlySizeChecked(file, probes);
  }

  /** Of the default rows, only the image row matches `photo.png`. */
  lemma PhotoPngMatchesImageRowOnly()
    ensures Matches(ImagePattern, "photo.png")
    ensures !Matches(SvgPattern, "photo.png")
    ensures !Matches(VideoPattern, "photo.png") && !Matches(AudioPattern, "photo.png")
  {
    var path := "photo.png";
    assert IsSuffix(ImagePattern.alternatives[2], path);
    forall j | 0 <= j < |path| - 1 && path[j] == '.'
      ensures path[j + 1] !in "moa"
    {
      assert j == 5;
    }
    MediaPatternsNeedDot(path);
  }

  lemma FlattenFirstOfFour<T>(rows: seq<seq<T>>)
    requires |rows| == 4 && rows[1] == [] && rows[2] == [] && rows[3] == []
    ensures Flatten(rows) == rows[0]
  {
    FlattenOne(rows[0]);
    assert rows[..1] == [rows[0]];
    assert rows[..2][..1] == rows[..1] && rows[..3][..2] == rows[..2] && rows[..3] == rows[..|rows| - 1];
    assert Flatten(rows[..2]) == rows[0];
  }

  /** A 2,000,000-byte png of 500x400 pixels: over the byte limit, and
      under the 640x480 minimum, so two warnings, size first. */
  lemma SmallHeavyPng()
    ensures Warnings(DefaultTable, File("photo.png", true, 2000000),
                     [Measured(500, 400), Failed(""), Failed(""), Failed("")])
         == [SizeTooBig("photo.png", 2000000, 1000000),
             DimsTooSmall("photo.png", 500, 400, Some(640), Some(480))]
  {
    var file := File("photo.png", true, 2000000);
    var probes := [Measured(500, 400), Failed(""), Failed(""), Failed("")];
    var expected := [SizeTooBig(file.path, 2000000, 1000000),
                     DimsTooSmall(file.path, 500, 400, Some(640), Some(480))];
    PhotoPngMatchesImageRowOnly();
    var rows := Rows(DefaultTable, file, probes);
    assert rows[0] == expected by {
      SmallHeavyPngImageRow();
    }
    assert rows[1] == [] && rows[2] == [] && rows[3] == [];
    FlattenFirstOfFour(rows);
  }

  lemma SmallHeavyPngImageRow()
    ensures PolicyWarnings(File("photo.png", true, 2000000), ImagePolicy, Measured(500, 400))
         == [SizeTooBig("photo.png", 2000000, 1000000),
             DimsTooSmall("photo.png", 500, 400, Some(640), Some(480))]
  {
  }

  /** The built-in table: four rows, each with a byte limit, of which only
      the first is probed; its bounds admit images from 640x480 up to
      2048x1536 inclusive, and nothing outside them. */
  lemma DefaultBounds(file: File, w: nat, h: nat)
    ensures |DefaultTable| == 4
    ensures forall k :: 0 <= k < |DefaultTable| ==>
      Limited(DefaultTable[k].policy.maxSize) && (DefaultTable[k].policy.image <==> k == 0)
    ensures ProbeCheck(file, DefaultTable[0].policy, Measured(w, h)) == []
        <==> 640 <= w <= 2048 && 480 <= h <= 1536
  {
  }
}
