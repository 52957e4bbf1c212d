/**
 * Storage keys of uploaded files: the key a new upload is stored under,
 * the public URL the storage client derives from it, and the key that
 * `deleteFile` recovers from a URL.
 */
module StorageKeys {

  /** `s.split(sep).pop()`: the text after the last `sep`, or all of `s` when it has none. */
  function LastSegment(s: string, sep: char): (r: string)
    ensures sep !in r
    ensures |r| <= |s|
  {
    if |s| == 0 then ""
    else if s[|s| - 1] == sep then ""
    else LastSegment(s[..|s| - 1], sep) + [s[|s| - 1]]
  }

  /** The last segment is a suffix of `s`, and a separator stands right before it unless it is all of `s`. */
  lemma {:induction false} LastSegmentSuffix(s: string, sep: char)
    ensures var r := LastSegment(s, sep);
      && r == s[|s| - |r|..]
      && (|r| < |s| ==> s[|s| - |r| - 1] == sep)
  {
    if |s| > 0 && s[|s| - 1] != sep {
      var s' := s[..|s| - 1];
      LastSegmentSuffix(s', sep);
      var r' := LastSegment(s', sep);
      assert s[|s| - |r'| - 1..] == s'[|s'| - |r'|..] + [s[|s| - 1]];
    }
  }

  /** Without a separator the whole string is its last segment. */
  lemma {:induction false} LastSegmentWhole(s: string, sep: char)
    requires sep !in s
    ensures LastSegment(s, sep) == s
  {
    if |s| > 0 {
      LastSegmentWhole(s[..|s| - 1], sep);
      assert s == s[..|s| - 1] + [s[|s| - 1]];
    }
  }

  /** The last segment is exactly what follows the last separator. */
  lemma {:induction false} LastSegmentAfter(p: string, sep: char, t: string)
    requires sep !in t
    ensures LastSegment(p + [sep] + t, sep) == t
    decreases |t|
  {
    var s := p + [sep] + t;
    if |t| > 0 {
      var t' := t[..|t| - 1];
      assert s[..|s| - 1] == p + [sep] + t';
      LastSegmentAfter(p, sep, t');
      assert t == t' + [t[|t| - 1]];
    }
  }

  /**
   * `${uuidv4()}.${fileExt}`: the key an upload of `name` is stored under,
   * the uuid and a dot followed by dot-free text taken from the end of the name.
   */
  function UploadKey(uuid: string, name: string): (key: string)
    ensures uuid + "." <= key && '.' !in key[|uuid| + 1..]
    ensures |key| <= |uuid| + 1 + |name|
  {
    uuid + "." + LastSegment(name, '.')
  }

  /**
   * The key is the uuid, a dot, and the extension: the text after the last
   * dot of the name, or the whole name when it has no dot.
   */
  lemma UploadKeyShape(uuid: string, name: string)
    ensures var key := UploadKey(uuid, name);
      && key[..|uuid| + 1] == uuid + "."
      && '.' !in key[|uuid| + 1..]
      && ('.' !in name ==> key == uuid + "." + name)
      && ('.' in name ==> exists p :: name == p + "." + key[|uuid| + 1..])
  {
    var ext := LastSegment(name, '.');
    LastSegmentSuffix(name, '.');
    if '.' !in name { LastSegmentWhole(name, '.'); }
    assert name == name[..|name| - |ext|] + ext;
    if '.' in name {
      assert ext != name;
      assert name[0..] == name;
      var p := name[..|name| - |ext| - 1];
      assert name == p + "." + ext;
    }
    var key := uuid + "." + ext;
    assert key[|uuid| + 1..] == ext;
  }

  /** Bucket of the storage client the files live in. */
  const BUCKET: string := "files"

  /**
   * `getPublicUrl(path)`: the public URL of the object stored under `key`,
   * in the bucket's public path under the storage URL. The URI encoding the
   * storage client applies is not modelled (see `UriPlain`): a key free of
   * `/` is the URL's last segment.
   */
  function PublicUrl(storageUrl: string, key: string): (url: string)
    ensures storageUrl <= url
    ensures '/' !in key ==> LastSegment(url, '/') == key
  {
    var prefix := storageUrl + "/object/public/" + BUCKET;
    LastSegmentAfterWhenClean(prefix, key);
    prefix + "/" + key
  }

  /** `LastSegmentAfter` for a text that may hold the separator, in which case nothing is claimed. */
  lemma LastSegmentAfterWhenClean(p: string, t: string)
    ensures '/' !in t ==> LastSegment(p + "/" + t, '/') == t
  {
    if '/' !in t {
      LastSegmentAfter(p, '/', t);
    }
  }

  /**
   * The characters `encodeURI` leaves as they are: letters, digits and
   * `-_.!~*'();/?:@&=+$,#`. Every other character is percent-escaped.
   */
  predicate UriPlain(c: char)
  {
    || ('A' <= c <= 'Z') || ('a' <= c <= 'z') || ('0' <= c <= '9')
    || c in "-_.!~*'();/?:@&=+$,#"
  }

  /** `url.split('/').pop()`: the object key `deleteFile` asks the storage to remove. */
  function RemoteKeyOf(url: string): (key: string)
    ensures '/' !in key
  {
    LastSegment(url, '/')
  }

  /**
   * Deleting by URL hits the object the upload created: its key comes back
   * from its public URL, and it is never empty, so the remote remove is issued.
   * This needs a key the URI encoding leaves unchanged; a key with a space,
   * say, comes back escaped, and names no stored object.
   */
  lemma UploadKeyRoundTrip(storageUrl: string, uuid: string, name: string)
    requires '/' !in uuid && '/' !in name
    requires forall i :: 0 <= i < |UploadKey(uuid, name)| ==> UriPlain(UploadKey(uuid, name)[i])
    ensures RemoteKeyOf(PublicUrl(storageUrl, UploadKey(uuid, name))) == UploadKey(uuid, name)
    ensures RemoteKeyOf(PublicUrl(storageUrl, UploadKey(uuid, name))) != ""
  {
    var key := UploadKey(uuid, name);
    var ext := LastSegment(name, '.');
    LastSegmentSuffix(name, '.');
    assert key == uuid + "." + ext;
    forall i | 0 <= i < |key| ensures key[i] != '/' {
      if i < |uuid| {
        assert key[i] == uuid[i];
      } else if i > |uuid| {
        assert key[i] == ext[i - |uuid| - 1] == name[|name| - |ext| + i - |uuid| - 1];
      }
    }
    var prefix := storageUrl + "/object/public/" + BUCKET;
    assert PublicUrl(storageUrl, key) == prefix + ['/'] + key;
    LastSegmentAfter(prefix, '/', key);
  }
}
