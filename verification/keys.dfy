/** Object keys and their inverse, the local path a key stands for.

    Two addressing modes are configured by the `relative_paths` setting:
    relative mode uses the path below the root as the key; absolute mode uses
    the file's absolute path without its leading `/`. */
module Keys {
  import opened Optional

  datatype Mode = Relative | Absolute

  /** `s3path` of both Ruby variants: the key for `rel` below `root`. Ruby's
      `abs_path[1..-1]` drops the first character of a string that is never
      empty here, because it contains the `/` separator. */
  function S3Path(mode: Mode, root: string, rel: string): (key: string)
    ensures mode == Relative ==> key == rel
    ensures mode == Absolute ==> |key| == |root| + |rel|
    ensures mode == Absolute && |root| >= 1 && root[0] == '/' ==> "/" + key == root + "/" + rel
  {
    match mode
    case Relative => rel
    case Absolute => (root + "/" + rel)[1..]
  }

  /** The key `timed_store` of the trunk variant computes inline as `aws_path`:
      it addresses the same object as `S3Path`, so the cache entry it clears
      and the object it puts are the same key. */
  function AwsPath(mode: Mode, root: string, rel: string): (key: string)
    ensures key == S3Path(mode, root, rel)
  {
    var absPath := root + "/" + rel;
    if mode == Relative then rel else absPath[1..]
  }

  /** `file_path_from_key` (branch), `abs_path_from_key` (trunk) and
      `filepath` (Python): the local path a key maps back to. In relative mode
      the first configured root is used; with no roots configured that lookup
      raises (`nil + '/'` in Ruby, an `IndexError` in Python), modelled as
      `None`. */
  function FilePathFromKey(mode: Mode, roots: seq<string>, key: string): (p: Option<string>)
    ensures mode == Absolute ==> p == Some("/" + key)
    ensures mode == Relative ==> (p.Some? <==> |roots| > 0)
    ensures mode == Relative && |roots| > 0 ==> p == Some(roots[0] + "/" + key)
  {
    match mode
    case Relative => if |roots| == 0 then None else Some(roots[0] + "/" + key)
    case Absolute => Some("/" + key)
  }

  /** Python's `s3path`, which takes the file's full path rather than the
      path below the root; Python slices past the end yield `""`. */
  function PyS3Path(mode: Mode, root: string, path: string): (key: string)
    ensures mode == Absolute && |path| >= 1 ==> [path[0]] + key == path
    ensures mode == Relative && |path| >= |root| + 1 ==> path[..|root| + 1] + key == path
  {
    match mode
    case Relative => if |root| + 1 <= |path| then path[|root| + 1..] else ""
    case Absolute => if 1 <= |path| then path[1..] else ""
  }

  /** Absolute mode: the key of `rel` below a root that starts with `/` maps
      back to the file's absolute path. */
  lemma RoundTripAbsolute(roots: seq<string>, root: string, rel: string)
    requires |root| >= 1 && root[0] == '/'
    ensures FilePathFromKey(Absolute, roots, S3Path(Absolute, root, rel)) == Some(root + "/" + rel)
  {
    var full := root + "/" + rel;
    assert full == [full[0]] + full[1..];
  }

  /** Relative mode: the round trip holds for the first configured root. */
  lemma RoundTripRelative(roots: seq<string>, rel: string)
    requires |roots| > 0
    ensures FilePathFromKey(Relative, roots, S3Path(Relative, roots[0], rel)) == Some(roots[0] + "/" + rel)
  {
  }

  /** Absolute mode needs the leading `/`: for the root `data` the key of
      `x` is `ata/x`, which maps back to `/ata/x`. */
  lemma RoundTripNeedsAbsoluteRoot()
    ensures S3Path(Absolute, "data", "x") == "ata/x"
    ensures FilePathFromKey(Absolute, ["data"], "ata/x") != Some("data/x")
  {
    assert ("data" + "/" + "x")[1..] == "ata/x";
    assert ("/" + "ata/x")[0] == '/';
  }

  /** Relative mode with several roots: a key uploaded from a later root maps
      back below the first root, not to the file it came from. */
  lemma RelativeModeUsesFirstRoot()
    ensures S3Path(Relative, "/b", "x") == "x"
    ensures FilePathFromKey(Relative, ["/a", "/b"], "x") == Some("/a/x")
    ensures FilePathFromKey(Relative, ["/a", "/b"], "x") != Some("/b/x")
  {
    assert "/a" + "/" + "x" == "/a/x";
    assert ("/a" + "/" + "x")[1] == 'a';
  }

  /** Absolute mode is injective on absolute paths: two files below roots that
      start with `/` get the same key exactly when their absolute paths agree. */
  lemma AbsoluteKeysInjective(root1: string, rel1: string, root2: string, rel2: string)
    requires |root1| >= 1 && root1[0] == '/'
    requires |root2| >= 1 && root2[0] == '/'
    ensures S3Path(Absolute, root1, rel1) == S3Path(Absolute, root2, rel2)
            <==> root1 + "/" + rel1 == root2 + "/" + rel2
  {
    RoundTripAbsolute([], root1, rel1);
    RoundTripAbsolute([], root2, rel2);
  }

  /** Python's key for the full path `root/rel` is the Ruby key for `rel`. */
  lemma PyS3PathAgrees(mode: Mode, root: string, rel: string)
    ensures PyS3Path(mode, root, root + "/" + rel) == S3Path(mode, root, rel)
  {
    if mode == Relative {
      var full := root + "/" + rel;
      assert full[|root| + 1..] == rel;
    }
  }

  /** Python relative mode: `filepath(s3path(root, path)) == path` for the first
      root and any path below it. */
  lemma PyRoundTripRelative(roots: seq<string>, path: string)
    requires |roots| > 0
    requires |path| >= |roots[0]| + 1 && path[..|roots[0]| + 1] == roots[0] + "/"
    ensures FilePathFromKey(Relative, roots, PyS3Path(Relative, roots[0], path)) == Some(path)
  {
    var key := PyS3Path(Relative, roots[0], path);
    assert path[..|roots[0]| + 1] + key == path;
  }

  /** Python absolute mode: `filepath(s3path(root, path)) == path` for every
      path starting with `/`, whatever the root. */
  lemma PyRoundTripAbsolute(roots: seq<string>, root: string, path: string)
    requires |path| >= 1 && path[0] == '/'
    ensures FilePathFromKey(Absolute, roots, PyS3Path(Absolute, root, path)) == Some(path)
  {
    var key := PyS3Path(Absolute, root, path);
    assert [path[0]] + key == path;
  }

  /** The other direction in absolute mode: a key maps to a path whose key is
      the key again. */
  lemma KeyRoundTripAbsolute(roots: seq<string>, root: string, key: string)
    ensures PyS3Path(Absolute, root, FilePathFromKey(Absolute, roots, key).value) == key
  {
    assert ("/" + key)[1..] == key;
  }
}
