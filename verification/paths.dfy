/** Local paths the core derives from identifiers and image URLs
    (`get_path2data`, `get_profile_jpg_path`). */
module Paths {
  import Decimal
  import Text
  import Profiles

  /** `AccountUtils.path2data`. */
  const DataDir: string := "./data"
  const DataPrefix: string := DataDir + "/"
  const JsonSuffix: string := ".json"
  const ProfileJpgPrefix: string := "./profile_jpg/"

  /** `get_path2data`: `./data/<id>.json`. The identifier can be read back
      from between the prefix and the suffix. */
  function GetPath2Data(id: int): (p: string)
    ensures |p| > |DataPrefix| + |JsonSuffix|
    ensures p[..|DataPrefix|] == "./data/"
    ensures p[|p| - |JsonSuffix|..] == ".json"
    ensures Decimal.ParseInt(p[|DataPrefix|..|p| - |JsonSuffix|]) == id
    ensures p == DataPrefix + Decimal.IntToString(id) + JsonSuffix
  {
    var digits := Decimal.IntToString(id);
    var p := DataPrefix + digits + JsonSuffix;
    assert p[|DataPrefix|..|p| - |JsonSuffix|] == digits;
    Decimal.IntRoundTrip(id);
    p
  }

  /** Distinct identifiers are stored under distinct paths, so keying the
      store by identifier is the same as keying it by path. */
  lemma GetPath2DataInjective(a: int, b: int)
    ensures GetPath2Data(a) == GetPath2Data(b) ==> a == b
  {
  }

  /** The pair `(dir_, path)` returned by `get_profile_jpg_path`. */
  datatype JpgPath = JpgPath(dir: string, path: string)

  /** `get_profile_jpg_path`: the directory `./profile_jpg/<id>` and, inside
      it, the last `/`-segment of the profile image URL. */
  function GetProfileJpgPath(r: Profiles.Record): (jp: JpgPath)
    ensures |jp.dir| > |ProfileJpgPrefix|
    ensures jp.dir[..|ProfileJpgPrefix|] == "./profile_jpg/"
    ensures Decimal.ParseInt(jp.dir[|ProfileJpgPrefix|..]) == r.id
    ensures jp.dir == ProfileJpgPrefix + Decimal.IntToString(r.id)
    ensures |jp.path| > |jp.dir| && jp.path[..|jp.dir| + 1] == jp.dir + "/"
    ensures Text.LastSegment(jp.path) == Text.LastSegment(r.profileImageUrl)
    ensures jp.path[|jp.dir| + 1..] == Text.LastSegment(r.profileImageUrl)
  {
    var name := Text.LastSegment(r.profileImageUrl);
    var digits := Decimal.IntToString(r.id);
    var dir := ProfileJpgPrefix + digits;
    var path := dir + "/" + name;
    assert dir[|ProfileJpgPrefix|..] == digits;
    assert path[..|dir| + 1] == dir + "/";
    assert path[|dir| + 1..] == name;
    Decimal.IntRoundTrip(r.id);
    Text.LastSegmentOfJoin(dir, name);
    JpgPath(dir, path)
  }

  /** Two records share an image directory only if they share an identifier. */
  lemma ProfileJpgDirInjective(a: Profiles.Record, b: Profiles.Record)
    ensures GetProfileJpgPath(a).dir == GetProfileJpgPath(b).dir ==> a.id == b.id
  {
  }
}
