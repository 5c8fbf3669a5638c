/** The Unix behaviour of Go's `path/filepath.Base`, `Clean` and `Join`, which
    the command line uses to name the output file and to place it in the
    output directory. `Clean` is stated by its documented rules (collapse
    slashes, drop `.` elements, cancel an inner `..` against the element before
    it, drop `..` at the root) over the `/`-separated elements of the path. */
module GoPath {
  import opened GoStrings

  /** `p` without its trailing slashes. */
  function TrimTrailingSlashes(p: string): (r: string)
    ensures r <= p
    ensures r == [] || r[|r| - 1] != '/'
    ensures forall k :: |r| <= k < |p| ==> p[k] == '/'
  {
    if p != [] && p[|p| - 1] == '/' then TrimTrailingSlashes(p[..|p| - 1]) else p
  }

  /** `filepath.Base`: the last element of `p` after trailing slashes are
      removed; "." for the empty path and "/" for a path of slashes only. */
  function Base(p: string): (r: string)
    ensures r != []
    ensures r == "/" || '/' !in r
    ensures p == [] ==> r == "."
  {
    if p == [] then "."
    else
      var t := TrimTrailingSlashes(p);
      var b := t[LastIndex(t, '/') + 1..];
      if b == [] then "/" else b
  }

  /** The base of a path that ends in a plain element is that element. */
  lemma BaseOfElement(prefix: string, name: string)
    requires prefix == [] || prefix[|prefix| - 1] == '/'
    requires name != [] && '/' !in name
    ensures Base(prefix + name) == name
  {
    var p := prefix + name;
    assert p[|p| - 1] == name[|name| - 1];
    assert TrimTrailingSlashes(p) == p;
    var i := LastIndex(p, '/');
    forall k | |prefix| <= k < |p| ensures p[k] != '/' {
      assert p[k] == name[k - |prefix|];
    }
    if prefix != [] {
      assert p[|prefix| - 1] == '/';
    }
    assert i == |prefix| - 1;
    assert p[i + 1..] == name;
  }

  lemma {:induction false} TrimSlashesOff(p: string, slashes: string)
    requires p == [] || p[|p| - 1] != '/'
    requires forall k :: 0 <= k < |slashes| ==> slashes[k] == '/'
    ensures TrimTrailingSlashes(p + slashes) == p
    decreases |slashes|
  {
    if slashes != [] {
      var q := p + slashes;
      assert q[|q| - 1] == '/';
      assert q[..|q| - 1] == p + slashes[..|slashes| - 1];
      TrimSlashesOff(p, slashes[..|slashes| - 1]);
    } else {
      assert p + slashes == p;
    }
  }

  /** Trailing slashes do not change the base: "h/dir/" has base "dir". */
  lemma BaseIgnoresTrailingSlashes(p: string, slashes: string)
    requires p != [] && p[|p| - 1] != '/'
    requires forall k :: 0 <= k < |slashes| ==> slashes[k] == '/'
    ensures Base(p + slashes) == Base(p)
  {
    TrimSlashesOff(p, slashes);
    TrimSlashesOff(p, "");
    assert p + "" == p;
  }

  /** The base of a path whose last element is `name` is `name`, whatever
      slashes follow it. */
  lemma BaseOfLast(prefix: string, name: string, slashes: string)
    requires prefix == [] || prefix[|prefix| - 1] == '/'
    requires name != [] && '/' !in name
    requires forall k :: 0 <= k < |slashes| ==> slashes[k] == '/'
    ensures Base(prefix + name + slashes) == name
  {
    var p := prefix + name;
    assert p[|p| - 1] == name[|name| - 1];
    BaseOfElement(prefix, name);
    BaseIgnoresTrailingSlashes(p, slashes);
  }

  /** `strings.Split(s, "/")`: the pieces between slashes, empty ones included. */
  function Pieces(s: string): (r: seq<string>)
    ensures |r| > 0
    ensures forall i :: 0 <= i < |r| ==> '/' !in r[i]
    decreases |s|
  {
    var parts := SplitN2(s, '/');
    if |parts| == 1 then [s] else [parts[0]] + Pieces(parts[1])
  }

  lemma {:induction false} PiecesConcat(a: string, b: string)
    ensures Pieces(a + "/" + b) == Pieces(a) + Pieces(b)
    decreases |a|
  {
    var s := a + "/" + b;
    if '/' !in a {
      SplitN2Unique(s, '/', a, b);
    } else {
      var parts := SplitN2(a, '/');
      assert s == parts[0] + "/" + (parts[1] + "/" + b);
      SplitN2Unique(s, '/', parts[0], parts[1] + "/" + b);
      PiecesConcat(parts[1], b);
    }
  }

  /** An element `Clean` keeps: not empty, not ".", free of slashes. */
  predicate Element(x: string) {
    x != "" && x != "." && '/' !in x
  }

  /** The pieces of `Pieces` that name something. */
  function Keep(xs: seq<string>): (r: seq<string>)
    requires forall i :: 0 <= i < |xs| ==> '/' !in xs[i]
    ensures forall i :: 0 <= i < |r| ==> Element(r[i])
  {
    if xs == [] then []
    else (if xs[0] == "" || xs[0] == "." then [] else [xs[0]]) + Keep(xs[1..])
  }

  lemma {:induction false} KeepConcat(xs: seq<string>, ys: seq<string>)
    requires forall i :: 0 <= i < |xs| ==> '/' !in xs[i]
    requires forall i :: 0 <= i < |ys| ==> '/' !in ys[i]
    ensures Keep(xs + ys) == Keep(xs) + Keep(ys)
  {
    if xs == [] {
      assert xs + ys == ys;
    } else {
      assert (xs + ys)[1..] == xs[1..] + ys;
      KeepConcat(xs[1..], ys);
    }
  }

  function Segments(p: string): (r: seq<string>)
    ensures forall i :: 0 <= i < |r| ==> Element(r[i])
  {
    Keep(Pieces(p))
  }

  /** One element folded into the directory stack: ".." cancels the element
      before it, is dropped at the root, and is kept at the front of a
      relative path. */
  function Push(rooted: bool, stack: seq<string>, seg: string): seq<string>
  {
    if seg == ".." then
      if |stack| > 0 && stack[|stack| - 1] != ".." then stack[..|stack| - 1]
      else if rooted then stack
      else stack + [".."]
    else stack + [seg]
  }

  function Resolve(rooted: bool, segs: seq<string>): (r: seq<string>)
    requires forall i :: 0 <= i < |segs| ==> Element(segs[i])
    ensures forall i :: 0 <= i < |r| ==> Element(r[i])
  {
    if segs == [] then []
    else Push(rooted, Resolve(rooted, segs[..|segs| - 1]), segs[|segs| - 1])
  }

  /** `strings.Join(segs, "/")`. */
  function JoinSlash(segs: seq<string>): (r: string)
    ensures segs != [] ==> |r| >= |segs[|segs| - 1]| && r[|r| - |segs[|segs| - 1]|..] == segs[|segs| - 1]
    ensures |segs| > 1 ==> |r| >= |segs[|segs| - 1]| + 1
    ensures segs != [] && segs[0] != [] ==> r != [] && r[0] == segs[0][0]
  {
    if segs == [] then ""
    else if |segs| == 1 then segs[0]
    else JoinSlash(segs[..|segs| - 1]) + "/" + segs[|segs| - 1]
  }

  /** `filepath.Clean`. */
  function Clean(p: string): (r: string)
    ensures r != []
  {
    if p == [] then "."
    else
      var rooted := p[0] == '/';
      var r := Resolve(rooted, Segments(p));
      if rooted then "/" + JoinSlash(r)
      else if r == [] then "."
      else JoinSlash(r)
  }

  /** `filepath.Join(dir, name)`: the non-empty arguments joined by "/" and
      cleaned. */
  function Join(dir: string, name: string): string
  {
    if dir != "" then Clean(dir + "/" + name)
    else if name != "" then Clean(name)
    else ""
  }

  /** What `Join` puts in front of a plain file name: the cleaned directory and
      a slash, nothing for the current directory, a single slash at the root. */
  function DirPrefix(cleanDir: string): string
  {
    if cleanDir == "/" then "/" else if cleanDir == "." then "" else cleanDir + "/"
  }

  lemma {:induction false} JoinSlashElements(r: seq<string>)
    requires r != [] && forall i :: 0 <= i < |r| ==> Element(r[i])
    ensures var j := JoinSlash(r); j != [] && j[|j| - 1] != '/' && j != "." && j[0] != '/'
  {
    var j := JoinSlash(r);
    var first, last := r[0], r[|r| - 1];
    assert Element(first) && Element(last);
    assert j[|j| - 1] == last[|last| - 1];
    assert j[0] == first[0];
    if |r| == 1 {
      assert j == first;
    }
  }

  lemma SegmentsAppend(dir: string, name: string)
    requires Element(name)
    ensures Segments(dir + "/" + name) == Segments(dir) + [name]
  {
    assert Pieces(name) == [name];
    assert Keep([name]) == [name];
    PiecesConcat(dir, name);
    KeepConcat(Pieces(dir), Pieces(name));
  }

  lemma ResolveAppend(rooted: bool, segs: seq<string>, name: string)
    requires forall i :: 0 <= i < |segs| ==> Element(segs[i])
    requires Element(name) && name != ".."
    ensures Resolve(rooted, segs + [name]) == Resolve(rooted, segs) + [name]
  {
    assert (segs + [name])[..|segs|] == segs;
  }

  /** `Clean` in terms of the resolved element stack of its argument. */
  lemma CleanOf(p: string, rooted: bool, R: seq<string>)
    requires p != [] && rooted == (p[0] == '/')
    requires R == Resolve(rooted, Segments(p))
    ensures Clean(p) == if rooted then "/" + JoinSlash(R) else if R == [] then "." else JoinSlash(R)
  {
  }

  /** Joining the stack `R` with one more element appends "/" and it. */
  lemma JoinSlashPush(R: seq<string>, name: string)
    requires R != []
    ensures JoinSlash(R + [name]) == JoinSlash(R) + "/" + name
  {
    assert (R + [name])[..|R|] == R;
  }

  /** The shape of `Clean` after one plain element is pushed onto the
      directory's resolved stack, whose join is `J` (empty when the stack
      is) and whose join with the element is `JP`. */
  lemma PushedShape(rooted: bool, empty: bool, J: string, JP: string, name: string, cleanP: string, cleanDir: string)
    requires empty ==> J == "" && JP == name
    requires !empty ==> J != [] && J[0] != '/' && J != "." && JP == J + "/" + name
    requires cleanP == if rooted then "/" + JP else JP
    requires cleanDir == if rooted then "/" + J else if empty then "." else J
    ensures cleanP == DirPrefix(cleanDir) + name
  {
    if !empty && rooted {
      assert cleanDir != "/" by { assert |cleanDir| > 1; }
      assert "/" + (J + "/" + name) == "/" + J + "/" + name;
    }
  }

  lemma CleanAppend(dir: string, name: string)
    requires dir != []
    requires Element(name) && name != ".."
    ensures Clean(dir + "/" + name) == DirPrefix(Clean(dir)) + name
  {
    var p := dir + "/" + name;
    var rooted := dir[0] == '/';
    var S := Segments(dir);
    var R := Resolve(rooted, S);
    var R' := R + [name];
    assert Resolve(rooted, Segments(p)) == R' by {
      SegmentsAppend(dir, name);
      ResolveAppend(rooted, S, name);
    }
    CleanOf(p, rooted, R');
    CleanOf(dir, rooted, R);
    if R == [] {
      assert JoinSlash(R') == name;
    } else {
      JoinSlashElements(R);
      JoinSlashPush(R, name);
    }
    PushedShape(rooted, R == [], JoinSlash(R), JoinSlash(R'), name, Clean(p), Clean(dir));
  }

  /** Joining a directory with a plain file name appends the name to the
      cleaned directory, so the result lies in that directory and its base is
      the name. */
  lemma JoinFileName(dir: string, name: string)
    requires Element(name) && name != ".."
    ensures Join(dir, name) == DirPrefix(Clean(dir)) + name
    ensures Base(Join(dir, name)) == name
  {
    if dir == "" {
      assert Pieces(name) == [name];
      assert Keep([name]) == [name];
      assert Resolve(false, [name]) == [name];
    } else {
      CleanAppend(dir, name);
    }
    var prefix := DirPrefix(Clean(dir));
    if prefix != [] {
      CleanShape(dir);
    }
    BaseOfElement(prefix, name);
  }

  /** A cleaned path ends in a slash only when it is the root. */
  lemma CleanShape(p: string)
    ensures var c := Clean(p); c == "/" || c[|c| - 1] != '/'
  {
    if p != [] {
      var R := Resolve(p[0] == '/', Segments(p));
      if R != [] {
        JoinSlashElements(R);
      }
    }
  }
}
