/** Decoding a fetched tuple into a column dict: `dict(zip(headers, x))`. */
module Rows {
  import opened Values

  /** Number of columns the query selects. */
  const HeaderCount: nat := 66

  /** Columns 0-29 of the select list, from table `asset`. */
  function AssetColumn(i: nat): string
    requires i < 30
  {
    match i
    case 0 => "id"
    case 1 => "deviceAssetId"
    case 2 => "ownerId"
    case 3 => "deviceId"
    case 4 => "type"
    case 5 => "originalPath"
    case 6 => "fileCreatedAt"
    case 7 => "fileModifiedAt"
    case 8 => "isFavorite"
    case 9 => "duration"
    case 10 => "encodedVideoPath"
    case 11 => "checksum"
    case 12 => "livePhotoVideoId"
    case 13 => "updatedAt"
    case 14 => "createdAt"
    case 15 => "originalFileName"
    case 16 => "thumbhash"
    case 17 => "isOffline"
    case 18 => "libraryId"
    case 19 => "isExternal"
    case 20 => "deletedAt"
    case 21 => "localDateTime"
    case 22 => "stackId"
    case 23 => "duplicateId"
    case 24 => "status"
    case 25 => "updateId"
    case 26 => "visibility"
    case 27 => "width"
    case 28 => "height"
    case 29 => "isEdited"
    case _ => "isEdited"
  }

  /** Columns 30-61, from table `asset_exif`. */
  function ExifColumn(i: nat): string
    requires i < 32
  {
    match i
    case 0 => "make"
    case 1 => "model"
    case 2 => "exifImageWidth"
    case 3 => "exifImageHeight"
    case 4 => "fileSizeInByte"
    case 5 => "orientation"
    case 6 => "dateTimeOriginal"
    case 7 => "modifyDate"
    case 8 => "lensModel"
    case 9 => "fNumber"
    case 10 => "focalLength"
    case 11 => "iso"
    case 12 => "latitude"
    case 13 => "longitude"
    case 14 => "city"
    case 15 => "state"
    case 16 => "country"
    case 17 => "description"
    case 18 => "fps"
    case 19 => "exposureTime"
    case 20 => "livePhotoCID"
    case 21 => "timeZone"
    case 22 => "projectionType"
    case 23 => "profileDescription"
    case 24 => "colorspace"
    case 25 => "bitsPerSample"
    case 26 => "autoStackId"
    case 27 => "rating"
    case 28 => "updatedAt"
    case 29 => "updateId"
    case 30 => "lockedProperties"
    case 31 => "tags"
    case _ => "tags"
  }

  /** Columns 62-65, from table `asset_metadata`. */
  function MetadataColumn(i: nat): string
    requires i < 4
  {
    match i
    case 0 => "key"
    case 1 => "value"
    case 2 => "updateId"
    case 3 => "updatedAt"
    case _ => "updatedAt"
  }

  /** Name of the i-th selected column: the table name, a dot, the column. */
  function Header(i: nat): string
    requires i < HeaderCount
  {
    if i < 30 then "asset." + AssetColumn(i)
    else if i < 62 then "asset_exif." + ExifColumn(i - 30)
    else "asset_metadata." + MetadataColumn(i - 62)
  }

  /** The `headers` list: 66 distinct names, the last four naming the
      `asset_metadata` columns. */
  function Headers(): (hs: seq<string>)
    ensures |hs| == HeaderCount
    ensures forall i :: 0 <= i < HeaderCount ==> hs[i] == Header(i)
    ensures Distinct(hs)
    ensures hs[62] == "asset_metadata.key" && hs[63] == "asset_metadata.value"
    ensures hs[64] == "asset_metadata.updateId" && hs[65] == "asset_metadata.updatedAt"
  {
    HeaderInjective();
    MetadataHeaders();
    seq(HeaderCount, i requires 0 <= i < HeaderCount => Header(i))
  }

  ghost predicate Distinct<T>(s: seq<T>) {
    forall i, j :: 0 <= i < j < |s| ==> s[i] != s[j]
  }

  lemma AssetColumnsDistinct()
    ensures forall i, j :: 0 <= i < j < 30 ==> AssetColumn(i) != AssetColumn(j)
  {
  }

  lemma ExifColumnsDistinct()
    ensures forall i, j :: 0 <= i < j < 32 ==> ExifColumn(i) != ExifColumn(j)
  {
  }

  lemma PrefixCancel(p: string, a: string, b: string)
    requires p + a == p + b
    ensures a == b
  {
    assert a == (p + a)[|p|..];
    assert b == (p + b)[|p|..];
  }

  lemma HeaderInjective()
    ensures forall i, j :: 0 <= i < j < HeaderCount ==> Header(i) != Header(j)
  {
    forall i, j | 0 <= i < j < HeaderCount
      ensures Header(i) != Header(j)
    {
      if j < 30 {
        AssetColumnsDistinct();
        if Header(i) == Header(j) { PrefixCancel("asset.", AssetColumn(i), AssetColumn(j)); }
      } else if 30 <= i && j < 62 {
        ExifColumnsDistinct();
        if Header(i) == Header(j) { PrefixCancel("asset_exif.", ExifColumn(i - 30), ExifColumn(j - 30)); }
      } else if 62 <= i {
        if Header(i) == Header(j) { PrefixCancel("asset_metadata.", MetadataColumn(i - 62), MetadataColumn(j - 62)); }
      } else {
        // The tables differ at the sixth or seventh character of the name.
        assert Header(i)[5] != Header(j)[5] || Header(i)[6] != Header(j)[6];
      }
    }
  }

  /** The last four columns are the `asset_metadata` columns. */
  lemma MetadataHeaders()
    ensures Header(62) == "asset_metadata.key"
    ensures Header(63) == "asset_metadata.value"
    ensures Header(64) == "asset_metadata.updateId"
    ensures Header(65) == "asset_metadata.updatedAt"
  {
  }

  lemma HeadersDistinct()
    ensures |Headers()| == HeaderCount
    ensures Distinct(Headers())
  {
    HeaderInjective();
  }

  function Min(a: nat, b: nat): nat {
    if a <= b then a else b
  }

  /** `dict(zip(keys, vals))`: pairs up to the shorter sequence are inserted in
      order, so a later pair for the same key overwrites an earlier one. */
  function Zip(keys: seq<string>, vals: seq<Value>): (r: Row)
    ensures r.Keys == set i | 0 <= i < Min(|keys|, |vals|) :: keys[i]
    decreases |keys|
  {
    if |keys| == 0 || |vals| == 0 then map[]
    else
      var later := Zip(keys[1..], vals[1..]);
      assert forall i :: 1 <= i < Min(|keys|, |vals|) ==> keys[i] == keys[1..][i - 1];
      if keys[0] in later then later else later[keys[0] := vals[0]]
  }

  /** A pair that no later pair overrides keeps its value. */
  lemma {:induction false} ZipLookup(keys: seq<string>, vals: seq<Value>, j: nat)
    requires j < Min(|keys|, |vals|)
    requires forall j' :: j < j' < Min(|keys|, |vals|) ==> keys[j'] != keys[j]
    ensures keys[j] in Zip(keys, vals) && Zip(keys, vals)[keys[j]] == vals[j]
    decreases j
  {
    var later := Zip(keys[1..], vals[1..]);
    if j == 0 {
      assert keys[0] !in later by {
        forall i | 0 <= i < Min(|keys| - 1, |vals| - 1)
          ensures keys[1..][i] != keys[0]
        {
          assert keys[1..][i] == keys[i + 1];
        }
      }
    } else {
      ZipLookup(keys[1..], vals[1..], j - 1);
    }
  }

  /** With distinct keys every pair survives. */
  lemma ZipDistinct(keys: seq<string>, vals: seq<Value>)
    requires Distinct(keys)
    ensures forall i :: 0 <= i < Min(|keys|, |vals|) ==> keys[i] in Zip(keys, vals) && Zip(keys, vals)[keys[i]] == vals[i]
  {
    forall i | 0 <= i < Min(|keys|, |vals|)
      ensures keys[i] in Zip(keys, vals) && Zip(keys, vals)[keys[i]] == vals[i]
    {
      ZipLookup(keys, vals, i);
    }
  }

  /** With distinct keys the dict has one entry per pair. */
  lemma {:induction false} ZipSize(keys: seq<string>, vals: seq<Value>)
    requires Distinct(keys)
    ensures |Zip(keys, vals)| == Min(|keys|, |vals|)
    decreases |keys|
  {
    if |keys| > 0 && |vals| > 0 {
      var later := Zip(keys[1..], vals[1..]);
      ZipSize(keys[1..], vals[1..]);
      assert keys[0] !in later by {
        forall i | 0 <= i < Min(|keys| - 1, |vals| - 1)
          ensures keys[1..][i] != keys[0]
        {
          assert keys[1..][i] == keys[i + 1];
        }
      }
    }
  }

  /** One fetched tuple as a row dict. The headers are distinct, so column i of
      the tuple is stored under the i-th header and nothing is lost; values past
      the last header are dropped, as `zip` stops at the shorter input. */
  function Decode(tuple: seq<Value>): (r: Row)
    ensures |r| == Min(HeaderCount, |tuple|)
    ensures r.Keys == set i | 0 <= i < Min(HeaderCount, |tuple|) :: Headers()[i]
    ensures forall i :: 0 <= i < Min(HeaderCount, |tuple|) ==> Headers()[i] in r && r[Headers()[i]] == tuple[i]
  {
    HeadersDistinct();
    ZipSize(Headers(), tuple);
    ZipDistinct(Headers(), tuple);
    Zip(Headers(), tuple)
  }
}
