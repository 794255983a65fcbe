/**
 * Deriving the media host's image identifier from a stored image URL, as
 * deletePost does with `img.split("/").pop().split(".")[0]`: the last
 * `/`-separated segment, cut before its first `.`.
 */
module ImageIds {

  /**
   * JavaScript's `String.prototype.split` with a one-character separator:
   * the pieces between separators, always at least one (`"".split("/")` is
   * `[""]`).
   */
  function Split(s: string, sep: char): (parts: seq<string>)
    ensures |parts| >= 1
    ensures forall i :: 0 <= i < |parts| ==> sep !in parts[i]
    ensures parts[0] <= s
    ensures sep !in s ==> parts == [s]
    decreases |s|
  {
    if s == [] then [""]
    else
      assert sep !in s ==> sep !in s[1..] && s == [s[0]] + s[1..];
      Cons(s[0], Split(s[1..], sep), sep)
  }

  /** Puts one more character in front of the pieces of a split. */
  function Cons(c: char, parts: seq<string>, sep: char): seq<string>
    requires |parts| >= 1
  {
    if c == sep then [""] + parts else [[c] + parts[0]] + parts[1..]
  }

  /** `Array.prototype.join` with a one-character separator; the inverse of Split. */
  function Join(parts: seq<string>, sep: char): string
    requires |parts| >= 1
    decreases |parts|
  {
    if |parts| == 1 then parts[0] else parts[0] + [sep] + Join(parts[1..], sep)
  }

  /** The image identifier of a stored image URL. */
  function ImageId(url: string): (id: string)
    ensures '/' !in id && '.' !in id
  {
    var segments := Split(url, '/');
    var last := segments[|segments| - 1];
    var id := Split(last, '.')[0];
    assert forall k :: 0 <= k < |id| ==> id[k] == last[k];
    id
  }

  /** Joining the pieces of a split gives back the string. */
  lemma {:induction false} JoinSplit(s: string, sep: char)
    ensures Join(Split(s, sep), sep) == s
    decreases |s|
  {
    if s != [] {
      var rest := Split(s[1..], sep);
      JoinSplit(s[1..], sep);
      if s[0] == sep {
        assert ([""] + rest)[1..] == rest;
      } else if |rest| > 1 {
        var parts := [[s[0]] + rest[0]] + rest[1..];
        assert parts[1..] == rest[1..];
        assert Join(rest, sep) == rest[0] + [sep] + Join(rest[1..], sep);
      }
    }
  }

  /** Cons only touches the first piece. */
  lemma ConsAppend(c: char, head: seq<string>, tail: seq<string>, sep: char)
    requires |head| >= 1
    ensures Cons(c, head + tail, sep) == Cons(c, head, sep) + tail
  {
  }

  /** Splitting at a separator splits each side independently. */
  lemma {:induction false} SplitAtSeparator(a: string, b: string, sep: char)
    ensures Split(a + [sep] + b, sep) == Split(a, sep) + Split(b, sep)
    decreases |a|
  {
    var s := a + [sep] + b;
    if a == [] {
      assert s[0] == sep && s[1..] == b;
    } else {
      var t := a[1..] + [sep] + b;
      assert s[0] == a[0] && s[1..] == t;
      SplitAtSeparator(a[1..], b, sep);
      ConsAppend(a[0], Split(a[1..], sep), Split(b, sep), sep);
    }
  }

  /** Splitting a join of separator-free pieces gives back the pieces. */
  lemma {:induction false} SplitJoin(parts: seq<string>, sep: char)
    requires |parts| >= 1
    requires forall i :: 0 <= i < |parts| ==> sep !in parts[i]
    ensures Split(Join(parts, sep), sep) == parts
    decreases |parts|
  {
    if |parts| > 1 {
      var rest := parts[1..];
      var joined := Join(rest, sep);
      assert Join(parts, sep) == parts[0] + [sep] + joined;
      assert forall i :: 0 <= i < |rest| ==> rest[i] == parts[i + 1];
      SplitJoin(rest, sep);
      SplitAtSeparator(parts[0], joined, sep);
      assert Split(parts[0], sep) == [parts[0]];
      assert [parts[0]] + rest == parts;
    }
  }

  /**
   * A URL whose last segment is `name.ext` yields `name`, whatever comes
   * before the last `/` and whatever extension follows the first `.`.
   */
  lemma ImageIdOfUrl(base: string, name: string, ext: string)
    requires '/' !in name && '.' !in name && '/' !in ext
    ensures ImageId(base + "/" + name + "." + ext) == name
  {
    var file := name + "." + ext;
    assert '/' !in file;
    assert base + "/" + name + "." + ext == base + ['/'] + file;
    SplitAtSeparator(base, file, '/');
    var segments := Split(base, '/') + Split(file, '/');
    assert segments[|segments| - 1] == file;
    assert file == name + ['.'] + ext;
    SplitAtSeparator(name, ext, '.');
  }

  /** A URL whose last segment has no `.` yields that whole segment. */
  lemma ImageIdOfBareSegment(base: string, seg: string)
    requires '/' !in seg && '.' !in seg
    ensures ImageId(base + "/" + seg) == seg
  {
    assert base + "/" + seg == base + ['/'] + seg;
    SplitAtSeparator(base, seg, '/');
    var segments := Split(base, '/') + Split(seg, '/');
    assert segments[|segments| - 1] == seg;
  }

  /** A string without `/` is its own last segment: `name.ext` yields `name`. */
  lemma ImageIdOfFileName(name: string, ext: string)
    requires '/' !in name && '.' !in name && '/' !in ext
    ensures ImageId(name + "." + ext) == name
  {
    var file := name + "." + ext;
    assert '/' !in file;
    assert file == name + ['.'] + ext;
    SplitAtSeparator(name, ext, '.');
  }

  /** Any URL ending in `.../abc.jpg` yields `abc`. */
  lemma ImageIdOfJpeg(base: string)
    ensures ImageId(base + "/abc.jpg") == "abc"
  {
    ImageIdOfUrl(base, "abc", "jpg");
    assert base + "/" + "abc" + "." + "jpg" == base + "/abc.jpg";
  }
}
