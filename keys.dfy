/**
 * Object-storage keys built by the diary client for a note's attachments
 * (src/App.js, addNote): an image is stored under `uuid + "." + ext`, where
 * `ext` is `name.split(".").pop()`, and an audio clip under `uuid + ".webm"`.
 */
module StorageKeys {

  /** JavaScript `s.split(sep)` for a one-character separator: never empty, no part holds `sep`. */
  function Split(s: string, sep: char): (parts: seq<string>)
    ensures |parts| >= 1
    ensures forall i :: 0 <= i < |parts| ==> sep !in parts[i]
    decreases |s|
  {
    if s == [] then [[]]
    else
      var rest := Split(s[1..], sep);
      if s[0] == sep then [[]] + rest
      else [[s[0]] + rest[0]] + rest[1..]
  }

  /** JavaScript `parts.join(sep)`: the inverse of Split. */
  function Join(parts: seq<string>, sep: char): string
    decreases |parts|
  {
    if |parts| == 0 then []
    else if |parts| == 1 then parts[0]
    else parts[0] + [sep] + Join(parts[1..], sep)
  }

  /** Splitting and joining again gives back the original string. */
  lemma {:induction false} JoinSplit(s: string, sep: char)
    ensures Join(Split(s, sep), sep) == s
    decreases |s|
  {
    if s != [] {
      var rest := Split(s[1..], sep);
      JoinSplit(s[1..], sep);
      if s[0] == sep {
        assert Split(s, sep) == [[]] + rest;
        assert ([[]] + rest)[1..] == rest;
        assert s == [sep] + s[1..];
      } else if |rest| == 1 {
        assert s == [s[0]] + s[1..];
      } else {
        var parts := Split(s, sep);
        assert parts[0] == [s[0]] + rest[0];
        assert parts[1..] == rest[1..];
        assert Join(rest, sep) == rest[0] + [sep] + Join(rest[1..], sep);
        assert s == [s[0]] + s[1..];
      }
    }
  }

  /** Joining dot-free parts and splitting again gives back the parts. */
  lemma {:induction false} SplitJoin(parts: seq<string>, sep: char)
    requires |parts| >= 1
    requires forall i :: 0 <= i < |parts| ==> sep !in parts[i]
    ensures Split(Join(parts, sep), sep) == parts
    decreases |parts|
  {
    if |parts| == 1 {
      SplitFree(parts[0], sep);
    } else {
      SplitJoin(parts[1..], sep);
      SplitAround(parts[0], Join(parts[1..], sep), sep);
      SplitFree(parts[0], sep);
      assert [parts[0]] + parts[1..] == parts;
    }
  }

  /** A string without the separator splits into itself alone. */
  lemma {:induction false} SplitFree(s: string, sep: char)
    requires sep !in s
    ensures Split(s, sep) == [s]
    decreases |s|
  {
    if s != [] {
      SplitFree(s[1..], sep);
      assert s == [s[0]] + s[1..];
    }
  }

  /** Splitting around one occurrence of the separator splits each side independently. */
  lemma {:induction false} SplitAround(a: string, b: string, sep: char)
    ensures Split(a + [sep] + b, sep) == Split(a, sep) + Split(b, sep)
    decreases |a|
  {
    var s := a + [sep] + b;
    var right := Split(b, sep);
    if a == [] {
      assert s == [sep] + b;
      assert s[1..] == b;
    } else {
      assert s[0] == a[0];
      assert s[1..] == a[1..] + [sep] + b;
      SplitAround(a[1..], b, sep);
      var left := Split(a[1..], sep);
      var rest := Split(s[1..], sep);
      assert rest == left + right;
      if a[0] == sep {
        assert Split(s, sep) == [[]] + rest;
        assert Split(a, sep) == [[]] + left;
      } else {
        assert rest[0] == left[0];
        assert rest[1..] == left[1..] + right;
        assert Split(s, sep) == [[a[0]] + left[0]] + rest[1..];
        assert Split(a, sep) == [[a[0]] + left[0]] + left[1..];
      }
    }
  }

  /** `parts.pop()` on a non-empty array: the last element. */
  function Last(parts: seq<string>): string
    requires |parts| >= 1
  {
    parts[|parts| - 1]
  }

  /** `name.split(".").pop()`: the text after the last dot, or the whole name when it has none. */
  function Extension(name: string): (ext: string)
    ensures '.' !in ext
    ensures |ext| <= |name|
  {
    LastPartLength(name);
    Last(Split(name, '.'))
  }

  /** The last part of a split is no longer than the string. */
  lemma {:induction false} LastPartLength(s: string)
    ensures |Last(Split(s, '.'))| <= |s|
    decreases |s|
  {
    if s != [] {
      LastPartLength(s[1..]);
    }
  }

  /** A name made of a stem, a dot and a dot-free extension has exactly that extension. */
  lemma ExtensionOfDotted(stem: string, ext: string)
    requires '.' !in ext
    ensures Extension(stem + "." + ext) == ext
  {
    SplitAround(stem, ext, '.');
    SplitFree(ext, '.');
  }

  /** A name without a dot is its own extension. */
  lemma ExtensionOfUndotted(name: string)
    requires '.' !in name
    ensures Extension(name) == name
  {
    SplitFree(name, '.');
  }

  /** Every name is either dot-free or a stem, a dot and its extension. */
  lemma {:induction false} NameEndsWithExtension(name: string)
    ensures '.' in name ==> exists k :: 0 < k <= |name| && name[k - 1] == '.' && name[k..] == Extension(name)
    ensures '.' !in name ==> Extension(name) == name
    decreases |name|
  {
    if '.' !in name {
      ExtensionOfUndotted(name);
    } else if name[0] == '.' && '.' !in name[1..] {
      ExtensionOfUndotted(name[1..]);
      assert Split(name, '.') == [[]] + Split(name[1..], '.');
      assert name[1..] == Extension(name);
    } else {
      assert '.' in name[1..];
      NameEndsWithExtension(name[1..]);
      var k :| 0 < k <= |name[1..]| && name[1..][k - 1] == '.' && name[1..][k..] == Extension(name[1..]);
      var rest := Split(name[1..], '.');
      assert Split(name, '.')[|Split(name, '.')| - 1] == rest[|rest| - 1] by {
        if name[0] != '.' {
          assert |rest| >= 2 by {
            JoinSplit(name[1..], '.');
          }
        }
      }
      assert name[k + 1..] == name[1..][k..];
    }
  }

  /** Object key for an uploaded image: a fresh uuid, a dot, the file name's extension. */
  function ImageKey(uuid: string, fileName: string): (key: string)
    ensures |key| == |uuid| + 1 + |Extension(fileName)|
    ensures key[..|uuid| + 1] == uuid + "."
  {
    uuid + "." + Extension(fileName)
  }

  /** Object key for a recorded audio clip: a fresh uuid followed by ".webm". */
  function AudioKey(uuid: string): (key: string)
    ensures |key| == |uuid| + 5
    ensures key[..|uuid|] == uuid
  {
    uuid + ".webm"
  }

  /** The image key keeps the file's extension, whatever the uuid (it may hold dots too). */
  lemma ImageKeyExtension(uuid: string, fileName: string)
    ensures Extension(ImageKey(uuid, fileName)) == Extension(fileName)
  {
    ExtensionOfDotted(uuid, Extension(fileName));
  }

  /** The audio key always has the extension "webm". */
  lemma AudioKeyExtension(uuid: string)
    ensures Extension(AudioKey(uuid)) == "webm"
  {
    assert AudioKey(uuid) == uuid + "." + "webm";
    ExtensionOfDotted(uuid, "webm");
  }
}
