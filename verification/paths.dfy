/** `os.path.join` on POSIX systems (Python's `posixpath.join`), which every
    data-path helper of the repository is built on. */
module Paths {

  const Sep: char := '/'

  /** The `RuntimeError` a data-path helper raises when it finds no data. */
  datatype PathError = RuntimeError(message: string)

  predicate IsAbsolute(p: string) { |p| > 0 && p[0] == Sep }

  predicate AllRelative(parts: seq<string>) { forall i :: 0 <= i < |parts| ==> !IsAbsolute(parts[i]) }

  /** One step of `posixpath.join`: an absolute component replaces what was
      built so far; otherwise a separator goes in between unless the path is
      empty or already ends in one. */
  function JoinOne(path: string, b: string): string
  {
    if IsAbsolute(b) then b
    else if path == [] || path[|path| - 1] == Sep then path + b
    else path + [Sep] + b
  }

  /** `os.path.join(a, *parts)`. */
  function Join(a: string, parts: seq<string>): string
    decreases |parts|
  {
    if parts == [] then a else Join(JoinOne(a, parts[0]), parts[1..])
  }

  /** With only relative components, the base is kept as a prefix. */
  lemma {:induction false} JoinKeepsBase(a: string, parts: seq<string>)
    ensures AllRelative(parts) ==> |a| <= |Join(a, parts)| && Join(a, parts)[..|a|] == a
    decreases |parts|
  {
    if parts != [] && AllRelative(parts) {
      var a' := JoinOne(a, parts[0]);
      assert a'[..|a|] == a;
      JoinKeepsBase(a', parts[1..]);
      assert Join(a, parts)[..|a'|][..|a|] == Join(a, parts)[..|a|];
    }
  }

  /** An absolute component discards everything before it. */
  lemma {:induction false} JoinAbsoluteRestarts(a: string, parts: seq<string>, k: nat)
    requires k < |parts| && IsAbsolute(parts[k])
    ensures Join(a, parts) == Join(parts[k], parts[k + 1..])
    decreases k
  {
    if k > 0 {
      JoinAbsoluteRestarts(JoinOne(a, parts[0]), parts[1..], k - 1);
      assert parts[1..][k - 1 + 1..] == parts[k + 1..];
    }
  }

  /** Joining one more component is one more step of `JoinOne`: the
      components are taken in order, left to right. */
  lemma {:induction false} JoinSnoc(a: string, parts: seq<string>, b: string)
    ensures Join(a, parts + [b]) == JoinOne(Join(a, parts), b)
    decreases |parts|
  {
    if parts == [] {
      assert parts + [b] == [b];
    } else {
      assert (parts + [b])[1..] == parts[1..] + [b];
      JoinSnoc(JoinOne(a, parts[0]), parts[1..], b);
    }
  }

  /** A plain folder or file name: non-empty, not absolute and without a
      trailing separator. */
  predicate PlainName(p: string) { p != [] && p[0] != Sep && p[|p| - 1] != Sep }

  predicate AllPlain(parts: seq<string>) { forall i :: 0 <= i < |parts| ==> PlainName(parts[i]) }

  /** Each component preceded by one separator, in order. */
  function SlashEach(parts: seq<string>): (s: string)
    ensures |s| >= |parts|
  {
    if parts == [] then [] else [Sep] + parts[0] + SlashEach(parts[1..])
  }

  /** The closed form of `os.path.join` for plain names: onto a base that
      does not end in a separator, each name is appended after exactly one
      separator, in order. */
  lemma {:induction false} JoinPlain(a: string, parts: seq<string>)
    ensures a != [] && a[|a| - 1] != Sep && AllPlain(parts) ==> Join(a, parts) == a + SlashEach(parts)
    decreases |parts|
  {
    if parts != [] && a != [] && a[|a| - 1] != Sep && AllPlain(parts) {
      var a' := a + [Sep] + parts[0];
      assert PlainName(parts[0]);
      assert JoinOne(a, parts[0]) == a';
      assert a'[|a'| - 1] == parts[0][|parts[0]| - 1];
      assert AllPlain(parts[1..]) by {
        forall i | 0 <= i < |parts[1..]| ensures PlainName(parts[1..][i]) {
          assert parts[1..][i] == parts[i + 1];
        }
      }
      JoinPlain(a', parts[1..]);
      calc {
        Join(a, parts);
        Join(a', parts[1..]);
        a' + SlashEach(parts[1..]);
        a + ([Sep] + parts[0] + SlashEach(parts[1..]));
      }
    }
  }

  /** Joining one relative name onto a directory that does not end with a
      separator puts exactly one separator in between. */
  lemma JoinSingle(a: string, b: string)
    requires a != [] && a[|a| - 1] != Sep && !IsAbsolute(b)
    ensures Join(a, [b]) == a + [Sep] + b
  {
  }
}
