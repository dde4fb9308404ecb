/** Reading a virtual texture description (`CreateVirtualTexture` and `LoadVirtualTexture`
    of virtualtex.cpp).  A description file holds the name `VirtualTexture` followed by a
    hash of parameters; the directory of the file is the base of the tile directory.

    The tokenizer, the parser and the file stream are not part of this model: the model takes
    whether the file opened, the first token (when it is a name) and the value the parser read
    as inputs. */
module VirtualTexConfig {
  import opened Bits
  import opened Wrappers
  import opened VirtualTex

  /** A parser value: what the parameter hash maps a key to. */
  datatype Value = NumberValue(number: real) | StringValue(str: string) | HashValue(hash: map<string, Value>) | OtherValue

  type Hash = map<string, Value>

  /** `Hash::getString`: the string stored under key, if the value there is a string. */
  function GetString(h: Hash, key: string): (r: Option<string>)
    ensures r.Some? <==> key in h && h[key].StringValue?
  {
    if key in h && h[key].StringValue? then Some(h[key].str) else None
  }

  /** `Hash::getNumber`: the number stored under key, if the value there is a number. */
  function GetNumber(h: Hash, key: string): (r: Option<real>)
    ensures r.Some? <==> key in h && h[key].NumberValue?
  {
    if key in h && h[key].NumberValue? then Some(h[key].number) else None
  }

  /** x has no fractional part: `x == floor(x)`. */
  predicate Integral(x: real)
  {
    x == x.Floor as real
  }

  /** `(int) x` for a non-negative double x (the only kind the tile size check casts):
      truncation.  Beyond the int range C++ leaves the result undefined; the model gives what
      x86 processors return there, the most negative int. */
  function IntCast(x: real): (r: int32)
    requires x >= 0.0
    ensures x < 0x8000_0000 as real ==> r == x.Floor
  {
    if x.Floor < 0x8000_0000 then x.Floor else -0x8000_0000
  }

  /** Why a description is refused. */
  datatype CreateError = MissingImageDirectory | BadBaseSplit | MissingTileSize | BadTileSize

  /** The arguments `CreateVirtualTexture` passes to the `VirtualTexture` constructor. */
  datatype TextureParams = TextureParams(tilePath: string, baseSplit: nat, tileSize: nat, tileType: string)

  /** BaseSplit is present, not negative and whole. */
  predicate GoodBaseSplit(b: Option<real>)
  {
    b.Some? && b.value >= 0.0 && Integral(b.value)
  }

  /** TileSize is whole, at least 64 and passes `isPow2((int) tileSize)`. */
  predicate GoodTileSize(t: real)
  {
    Integral(t) && t >= 64.0 && IsPow2(IntCast(t))
  }

  /** `CreateVirtualTexture(texParams, path)`: the checks in order, each failing one naming
      its error; otherwise the tile directory `path/ImageDirectory/`, the base split, the
      tile size and the tile type ("dds" unless TileType is given). */
  function CreateVirtualTexture(texParams: Hash, path: string): (r: Result<TextureParams, CreateError>)
    ensures GetString(texParams, "ImageDirectory").None? ==> r == Failure(MissingImageDirectory)
    ensures r.Success? <==>
              GetString(texParams, "ImageDirectory").Some? &&
              GoodBaseSplit(GetNumber(texParams, "BaseSplit")) &&
              GetNumber(texParams, "TileSize").Some? && GoodTileSize(GetNumber(texParams, "TileSize").value)
    ensures r.Success? ==>
              r.value.tilePath == path + "/" + GetString(texParams, "ImageDirectory").value + "/" &&
              r.value.baseSplit as real == GetNumber(texParams, "BaseSplit").value &&
              r.value.tileSize as real == GetNumber(texParams, "TileSize").value &&
              r.value.tileType == match GetString(texParams, "TileType") case None => "dds" case Some(t) => t
  {
    match GetString(texParams, "ImageDirectory")
    case None => Failure(MissingImageDirectory)
    case Some(imageDirectory) =>
      var baseSplit := GetNumber(texParams, "BaseSplit");
      if !GoodBaseSplit(baseSplit) then Failure(BadBaseSplit)
      else
        match GetNumber(texParams, "TileSize")
        case None => Failure(MissingTileSize)
        case Some(tileSize) =>
          if !GoodTileSize(tileSize) then Failure(BadTileSize)
          else
            var tileType := match GetString(texParams, "TileType") case None => "dds" case Some(t) => t;
            Success(TextureParams(path + "/" + imageDirectory + "/", baseSplit.value.Floor, tileSize.Floor, tileType))
  }

  /** The errors come in the order of the checks: the first check that fails is reported. */
  lemma {:induction false} CreateErrorOrder(texParams: Hash, path: string)
    ensures var r := CreateVirtualTexture(texParams, path);
            var dir := GetString(texParams, "ImageDirectory");
            var base := GetNumber(texParams, "BaseSplit");
            var size := GetNumber(texParams, "TileSize");
            (r == Failure(BadBaseSplit) <==> dir.Some? && !GoodBaseSplit(base)) &&
            (r == Failure(MissingTileSize) <==> dir.Some? && GoodBaseSplit(base) && size.None?) &&
            (r == Failure(BadTileSize) <==> dir.Some? && GoodBaseSplit(base) && size.Some? && !GoodTileSize(size.value))
  {
  }

  /** Below 2^31, where `(int)` is exact, an accepted tile size is a power of two of at least
      64; and every such power of two is accepted. */
  lemma {:induction false} TileSizeAccepted(t: real)
    requires t < 0x8000_0000 as real
    ensures GoodTileSize(t) <==> t >= 64.0 && Integral(t) && IsPowerOfTwo(t.Floor)
  {
    if t >= 64.0 && Integral(t) {
      assert IntCast(t) == t.Floor;
    }
  }

  /** The constructor's own demands: `baseSplit > 0`, and `tileSize != 0 && isPow2(tileSize)`
      on the 32-bit values. */
  predicate ConstructorAccepts(p: TextureParams)
  {
    0 < p.baseSplit < 0x1_0000_0000 && 0 < p.tileSize < 0x1_0000_0000 && IsPow2(WrapInt32(p.tileSize))
  }

  /** A description that is accepted, with a positive base split and a tile size below 2^31,
      gives arguments the constructor accepts. */
  lemma {:induction false} CreateFeedsConstructor(texParams: Hash, path: string)
    requires CreateVirtualTexture(texParams, path).Success?
    requires var p := CreateVirtualTexture(texParams, path).value;
             0 < p.baseSplit < 0x1_0000_0000 && p.tileSize < 0x8000_0000
    ensures ConstructorAccepts(CreateVirtualTexture(texParams, path).value)
  {
    var p := CreateVirtualTexture(texParams, path).value;
    var t := GetNumber(texParams, "TileSize").value;
    assert GoodTileSize(t) && p.tileSize as real == t;
    assert IntCast(t) == p.tileSize;
    WrapSmall(p.tileSize);
  }

  /** A non-negative int below 2^31 is unchanged by the wrap-around. */
  lemma {:induction false} WrapSmall(x: int)
    requires 0 <= x < 0x8000_0000
    ensures WrapInt32(x) == x
  {
    DivModUnique(x + 0x8000_0000, 0x1_0000_0000, 0, x + 0x8000_0000);
  }

  /** The two disagree on a base split of 0: 0 passes `CreateVirtualTexture`'s check (it is
      neither negative nor fractional), and the constructor's assertion then fails. */
  lemma {:induction false} BaseSplitZeroConflict(dir: string, path: string)
    ensures var h := map["ImageDirectory" := StringValue(dir), "BaseSplit" := NumberValue(0.0),
                         "TileSize" := NumberValue(256.0)];
            var r := CreateVirtualTexture(h, path);
            r.Success? && r.value.baseSplit == 0 && !ConstructorAccepts(r.value)
  {
    var h := map["ImageDirectory" := StringValue(dir), "BaseSplit" := NumberValue(0.0),
                 "TileSize" := NumberValue(256.0)];
    assert GetNumber(h, "TileSize") == Some(256.0);
    assert IntCast(256.0) == 256;
    PowerOfTwoPow2(8);
    assert Pow2(8) == 256 by {
      Pow2Constants();
      assert Pow2(8) == 4 * Pow2(6);
    }
    assert IsPow2(256);
  }

  // ---------------------------------------------------------------------------
  // The description file

  /** `filename.rfind('/')`: the position of the last slash. */
  function LastSlash(s: string): (r: Option<nat>)
    ensures r.Some? ==> r.value < |s| && s[r.value] == '/' && forall j :: r.value < j < |s| ==> s[j] != '/'
    ensures r.None? ==> forall j :: 0 <= j < |s| ==> s[j] != '/'
  {
    if s == [] then None
    else if s[|s| - 1] == '/' then Some(|s| - 1)
    else LastSlash(s[..|s| - 1])
  }

  /** The path `LoadVirtualTexture` gives the tile directory: everything before the final
      slash of the file name, or "." when there is none. */
  function DirectoryOf(filename: string): (path: string)
    ensures LastSlash(filename).None? ==> path == "."
    ensures LastSlash(filename).Some? ==> path == filename[..LastSlash(filename).value]
  {
    match LastSlash(filename)
    case None => "."
    case Some(pos) => filename[..pos]
  }

  /** Stripping the name of a file in directory dir gives dir back. */
  lemma {:induction false} DirectoryOfJoin(dir: string, name: string)
    requires forall j :: 0 <= j < |name| ==> name[j] != '/'
    ensures DirectoryOf(dir + "/" + name) == dir
  {
    var s := dir + "/" + name;
    LastSlashSkips(dir + "/", name);
    assert s[..|dir|] == dir;
  }

  /** The last slash of a + b, b having none, is the last slash of a. */
  lemma {:induction false} LastSlashSkips(a: string, b: string)
    requires a != [] && a[|a| - 1] == '/'
    requires forall j :: 0 <= j < |b| ==> b[j] != '/'
    ensures LastSlash(a + b) == Some(|a| - 1)
    decreases |b|
  {
    if b == [] {
      assert a + b == a;
    } else {
      var s := a + b;
      assert s[|s| - 1] == b[|b| - 1];
      assert s[..|s| - 1] == a + b[..|b| - 1];
      LastSlashSkips(a, b[..|b| - 1]);
    }
  }

  /** Why `LoadVirtualTexture` gives no texture. */
  datatype LoadError = CannotOpen | NotVirtualTexture | BadParameters | Refused(reason: CreateError)

  /** `LoadVirtualTexture(filename)`: the file must open, start with the name
      `VirtualTexture` and go on with a hash; the hash is then checked by
      `CreateVirtualTexture` relative to the file's directory.  `good` is whether the
      stream is good, `firstName` the first token when it is a name, `value` what the parser
      read after it. */
  function LoadVirtualTexture(filename: string, good: bool, firstName: Option<string>, value: Option<Value>)
    : (r: Result<TextureParams, LoadError>)
    ensures !good ==> r == Failure(CannotOpen)
    ensures good && firstName != Some("VirtualTexture") ==> r == Failure(NotVirtualTexture)
    ensures r.Success? <==>
              good && firstName == Some("VirtualTexture") && value.Some? && value.value.HashValue? &&
              CreateVirtualTexture(value.value.hash, DirectoryOf(filename)).Success?
    ensures r.Success? ==> r.value == CreateVirtualTexture(value.value.hash, DirectoryOf(filename)).value
  {
    if !good then Failure(CannotOpen)
    else if firstName != Some("VirtualTexture") then Failure(NotVirtualTexture)
    else if value.None? || !value.value.HashValue? then Failure(BadParameters)
    else
      match CreateVirtualTexture(value.value.hash, DirectoryOf(filename))
      case Failure(e) => Failure(Refused(e))
      case Success(p) => Success(p)
  }

  /** A texture described by `dir/name` has its tiles under `dir/ImageDirectory/`. */
  lemma {:induction false} LoadedTilePath(dir: string, name: string, h: Hash)
    requires forall j :: 0 <= j < |name| ==> name[j] != '/'
    requires LoadVirtualTexture(dir + "/" + name, true, Some("VirtualTexture"), Some(HashValue(h))).Success?
    ensures LoadVirtualTexture(dir + "/" + name, true, Some("VirtualTexture"), Some(HashValue(h))).value.tilePath ==
              dir + "/" + GetString(h, "ImageDirectory").value + "/"
  {
    DirectoryOfJoin(dir, name);
  }
}
