/**
 * The lexical path rules of Go's path/filepath on a Unix system, for rooted paths:
 * Join puts one separator between non-empty elements and cleans the result, and Clean
 * collapses repeated separators, drops "." elements, lets ".." remove the element before
 * it (and stay at the root when there is none) and removes any trailing separator.
 */
module FilePath {

  const Separator: char := '/'

  predicate IsRooted(p: string) {
    |p| > 0 && p[0] == Separator
  }

  /** The pieces of s between separators, in order, empty pieces included:
      Fields("a//b") == ["a", "", "b"] and Fields("/a") == ["", "a"]. */
  function Fields(s: string): (fs: seq<string>)
    ensures |fs| >= 1
    decreases |s|
  {
    if s == [] then [""]
    else
      var rest := Fields(s[1..]);
      if s[0] == Separator then [""] + rest
      else [[s[0]] + rest[0]] + rest[1..]
  }

  /** An element Clean keeps: not empty, no separator in it, neither "." nor "..". */
  predicate Normal(e: string) {
    e != "" && e != "." && e != ".." && Separator !in e
  }

  predicate AllNormal(es: seq<string>) {
    forall i :: 0 <= i < |es| ==> Normal(es[i])
  }

  /** Clean's element rule, applied left to right onto the elements kept so far. */
  function Resolve(kept: seq<string>, fields: seq<string>): seq<string>
    decreases |fields|
  {
    if fields == [] then kept
    else
      var f := fields[0];
      if f == "" || f == "." then Resolve(kept, fields[1..])
      else if f == ".." then Resolve(if kept == [] then [] else kept[..|kept| - 1], fields[1..])
      else Resolve(kept + [f], fields[1..])
  }

  /** "/e0/e1/..." for the elements es, and "" when there are none. */
  function Rooted(es: seq<string>): string {
    if es == [] then "" else [Separator] + es[0] + Rooted(es[1..])
  }

  /** What a cleaned rooted path looks like: the root alone, or the root followed by
      elements that Clean would keep unchanged. */
  predicate IsClean(p: string) {
    p == [Separator] || (IsRooted(p) && AllNormal(Fields(p)[1..]) && |Fields(p)| >= 2)
  }

  /** filepath.Clean on a rooted path. */
  function Clean(p: string): (r: string)
    requires IsRooted(p)
    ensures IsClean(r)
  {
    var es := Resolve([], Fields(p));
    FieldsHaveNoSeparator(p);
    ResolveKeepsNormal([], Fields(p));
    if es == [] then [Separator]
    else
      FieldsOfRooted(es);
      Rooted(es)
  }

  /** filepath.Join of a rooted directory and one more element: an empty element is ignored. */
  function Join(dir: string, elem: string): (r: string)
    requires IsRooted(dir)
    ensures IsClean(r)
  {
    if elem == "" then Clean(dir) else Clean(dir + [Separator] + elem)
  }

  lemma {:induction false} FieldsHaveNoSeparator(s: string)
    ensures forall i :: 0 <= i < |Fields(s)| ==> Separator !in Fields(s)[i]
    decreases |s|
  {
    if s != [] {
      FieldsHaveNoSeparator(s[1..]);
    }
  }

  /** A word without separators glues onto the first field of what follows it. */
  lemma {:induction false} FieldsOfWordThen(w: string, t: string)
    requires Separator !in w
    ensures Fields(w + t) == [w + Fields(t)[0]] + Fields(t)[1..]
    decreases |w|
  {
    var ft := Fields(t);
    if w != [] {
      assert (w + t)[0] == w[0] && (w + t)[1..] == w[1..] + t;
      assert w[0] in w;
      FieldsOfWordThen(w[1..], t);
      var rest := Fields(w[1..] + t);
      assert rest == [w[1..] + ft[0]] + ft[1..];
      assert Fields(w + t) == [[w[0]] + rest[0]] + rest[1..];
      assert [w[0]] + (w[1..] + ft[0]) == w + ft[0];
    } else {
      assert w + t == t;
      assert w + ft[0] == ft[0];
      assert ft == [ft[0]] + ft[1..];
    }
  }

  lemma FieldsAfterSeparator(t: string)
    ensures Fields([Separator] + t) == [""] + Fields(t)
  {
    assert ([Separator] + t)[1..] == t;
  }

  /** Splitting a rendered path gives back its elements. */
  lemma {:induction false} FieldsOfRooted(es: seq<string>)
    requires AllNormal(es)
    ensures Fields(Rooted(es)) == if es == [] then [""] else [""] + es
    decreases |es|
  {
    if es != [] {
      var tail := Rooted(es[1..]);
      FieldsOfRooted(es[1..]);
      assert Rooted(es) == [Separator] + (es[0] + tail);
      FieldsAfterSeparator(es[0] + tail);
      assert Normal(es[0]);
      FieldsOfWordThen(es[0], tail);
      var ft := Fields(tail);
      assert ft[0] == "" && ft[1..] == es[1..];
      assert es[0] + ft[0] == es[0];
      assert Fields(es[0] + tail) == [es[0]] + es[1..] == es;
    }
  }

  lemma {:induction false} ResolveKeepsNormal(kept: seq<string>, fields: seq<string>)
    requires AllNormal(kept)
    requires forall i :: 0 <= i < |fields| ==> Separator !in fields[i]
    ensures AllNormal(Resolve(kept, fields))
    decreases |fields|
  {
    if fields != [] {
      var f := fields[0];
      if f == "" || f == "." {
        ResolveKeepsNormal(kept, fields[1..]);
      } else if f == ".." {
        ResolveKeepsNormal(if kept == [] then [] else kept[..|kept| - 1], fields[1..]);
      } else {
        ResolveKeepsNormal(kept + [f], fields[1..]);
      }
    }
  }

  /** Elements that are already normal pass through Resolve unchanged. */
  lemma {:induction false} ResolveNormal(kept: seq<string>, es: seq<string>)
    requires AllNormal(es)
    ensures Resolve(kept, es) == kept + es
    decreases |es|
  {
    if es != [] {
      ResolveNormal(kept + [es[0]], es[1..]);
      assert kept + [es[0]] + es[1..] == kept + es;
    }
  }

  /** Without ".." elements nothing already kept is ever removed. */
  lemma {:induction false} ResolveExtends(kept: seq<string>, fields: seq<string>)
    requires forall i :: 0 <= i < |fields| ==> fields[i] != ".."
    ensures kept <= Resolve(kept, fields)
    decreases |fields|
  {
    if fields != [] {
      var f := fields[0];
      if f == "" || f == "." {
        ResolveExtends(kept, fields[1..]);
      } else {
        ResolveExtends(kept + [f], fields[1..]);
      }
    }
  }

  /** Cleaning a clean path changes nothing. */
  lemma CleanIdempotent(p: string)
    requires IsRooted(p)
    ensures Clean(Clean(p)) == Clean(p)
  {
    var es := Resolve([], Fields(p));
    FieldsHaveNoSeparator(p);
    ResolveKeepsNormal([], Fields(p));
    if es == [] {
      FieldsAfterSeparator("");
      assert [Separator] + "" == [Separator];
      assert Fields([Separator]) == ["", ""];
      assert Resolve([], ["", ""]) == [];
    } else {
      FieldsOfRooted(es);
      ResolveNormal([], es);
      assert ([""] + es)[1..] == es;
      assert Resolve([], [""] + es) == Resolve([], es) == es;
    }
  }

  /** A rendered path of normal elements never has two separators in a row and never
      ends in a separator. */
  lemma {:induction false} RootedSingleSeparators(es: seq<string>)
    requires AllNormal(es)
    ensures forall i :: 0 <= i < |Rooted(es)| - 1 ==>
              !(Rooted(es)[i] == Separator && Rooted(es)[i + 1] == Separator)
    ensures es != [] ==> Rooted(es)[|Rooted(es)| - 1] != Separator
    decreases |es|
  {
    if es != [] {
      var e, tail := es[0], Rooted(es[1..]);
      RootedSingleSeparators(es[1..]);
      var r := Rooted(es);
      assert r == [Separator] + e + tail;
      assert |e| >= 1;
      forall i | 0 <= i < |r| - 1
        ensures !(r[i] == Separator && r[i + 1] == Separator)
      {
        if i == 0 {
          assert r[1] == e[0];
        } else if i <= |e| {
          assert r[i] == e[i - 1];
          assert e[i - 1] in e;
        } else {
          assert r[i] == tail[i - 1 - |e|] && r[i + 1] == tail[i - |e|];
        }
      }
      if es[1..] == [] {
        assert r[|r| - 1] == e[|e| - 1];
        assert e[|e| - 1] in e;
      } else {
        assert r[|r| - 1] == tail[|tail| - 1];
      }
    }
  }

  /** The promise the Go documentation makes for Clean: no doubled separators and no
      trailing separator except for the root itself. */
  lemma CleanSingleSeparators(p: string)
    requires IsRooted(p)
    ensures forall i :: 0 <= i < |Clean(p)| - 1 ==>
              !(Clean(p)[i] == Separator && Clean(p)[i + 1] == Separator)
    ensures Clean(p) != [Separator] ==> Clean(p)[|Clean(p)| - 1] != Separator
  {
    var es := Resolve([], Fields(p));
    FieldsHaveNoSeparator(p);
    ResolveKeepsNormal([], Fields(p));
    if es != [] {
      RootedSingleSeparators(es);
    }
  }
}
