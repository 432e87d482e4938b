/** Docker references: a parser that follows a greedy pattern, and the printer that undoes it. */
module DockerReferences {
  import opened Wrappers

  datatype DockerReference = DockerReference(registry: string, repository: string, tag: Option<string>, digest: Option<string>)

  predicate Without(s: string, stops: set<char>) {
    forall c | c in s :: c !in stops
  }

  /** The references that the pattern can yield. */
  predicate WellFormed(r: DockerReference) {
    && r.registry != "" && Without(r.registry, {'/'})
    && r.repository != "" && Without(r.repository, {':', '@'})
    && (r.tag.Some? ==> r.tag.value != "" && Without(r.tag.value, {'@'}))
    && (r.digest.Some? ==> r.digest.value != "" && Without(r.digest.value, {'\n'}))
  }

  /** `__str__` */
  function Str(r: DockerReference): string {
    r.registry + "/" + r.repository
    + (if r.tag.Some? then ":" + r.tag.value else "")
    + (if r.digest.Some? then "@" + r.digest.value else "")
  }

  /** The first position from `from` on that holds one of these characters, or the end. */
  function Until(s: string, from: nat, stops: set<char>): (k: nat)
    requires from <= |s|
    ensures from <= k <= |s| && Without(s[from..k], stops) && (k < |s| ==> s[k] in stops)
    decreases |s| - from
  {
    if from == |s| || s[from] in stops then from
    else
      var k := Until(s, from + 1, stops);
      assert s[from..k] == [s[from]] + s[from + 1..k];
      k
  }

  /** The part of the pattern for the digest, up to the end or to a newline that ends the string. */
  function ParseDigest(s: string, at: nat, r: DockerReference): Option<DockerReference>
    requires at < |s| && s[at] == '@'
  {
    var end := Until(s, at + 1, {'\n'});
    if end == at + 1 || end < |s| - 1 then None
    else Some(r.(digest := Some(s[at + 1..end])))
  }

  /** The part of the pattern for the tag and the digest. */
  function ParseTag(s: string, at: nat, r: DockerReference): Option<DockerReference>
    requires at <= |s| && (at < |s| ==> s[at] in {':', '@'})
  {
    if at == |s| then Some(r)
    else if s[at] == '@' then ParseDigest(s, at, r)
    else
      var end := Until(s, at + 1, {'@'});
      var tagged := r.(tag := Some(s[at + 1..end]));
      if end == at + 1 then None
      else if end == |s| then Some(tagged)
      else ParseDigest(s, end, tagged)
  }

  /** `from_str`, with each group as long as it can get; `None` stands for `ValueError`. */
  function FromStr(s: string): Option<DockerReference> {
    var slash := Until(s, 0, {'/'});
    if slash == 0 || slash == |s| then None
    else
      var end := Until(s, slash + 1, {':', '@'});
      if end == slash + 1 then None
      else ParseTag(s, end, DockerReference(s[..slash], s[slash + 1..end], None, None))
  }

  /** `$` matches at the end and before a newline at the end. */
  predicate Ends(suffix: string) {
    suffix == "" || suffix == "\n"
  }

  /** A way to match the whole pattern, however its groups are shared out. */
  predicate Fits(s: string, r: DockerReference, suffix: string) {
    WellFormed(r) && Ends(suffix) && s == Str(r) + suffix
  }

  lemma UntilThere(s: string, from: nat, part: string, rest: string, stops: set<char>)
    requires from <= |s| && s[from..] == part + rest && Without(part, stops) && (rest == "" || rest[0] in stops)
    ensures Until(s, from, stops) == from + |part| && s[from..from + |part|] == part && s[from + |part|..] == rest
  {
    var n := from + |part|;
    assert forall i | 0 <= i < |part| :: s[from + i] == s[from..][i] == part[i];
    assert n < |s| ==> s[n] == s[from..][|part|] == rest[0];
    UntilAt(s, from, n, stops);
    assert s[from..n] == part && s[n..] == rest;
  }

  lemma UntilAt(s: string, from: nat, n: nat, stops: set<char>)
    requires from <= n <= |s| && (forall i | from <= i < n :: s[i] !in stops) && (n < |s| ==> s[n] in stops)
    ensures Until(s, from, stops) == n
    decreases n - from
  {
  }

  /** A part that starts where another one ends. */
  lemma Onward(s: string, from: nat, mark: char, rest: string)
    requires from <= |s| && s[from..] == [mark] + rest
    ensures from < |s| && s[from] == mark && s[from + 1..] == rest
  {
    assert s[from..][0] == mark && s[from..][1..] == s[from + 1..];
  }

  function Tail(r: DockerReference, suffix: string): string {
    (if r.digest.Some? then "@" + r.digest.value else "") + suffix
  }

  lemma DigestThere(s: string, at: nat, r: DockerReference, suffix: string)
    requires at <= |s| && WellFormed(r) && r.digest.Some? && Ends(suffix) && s[at..] == Tail(r, suffix)
    ensures at < |s|
    ensures s[at] == '@' && ParseDigest(s, at, r.(digest := None)) == Some(r)
  {
    assert Tail(r, suffix) == ['@'] + (r.digest.value + suffix);
    Onward(s, at, '@', r.digest.value + suffix);
    UntilThere(s, at + 1, r.digest.value, suffix, {'\n'});
  }

  function TagTail(r: DockerReference, suffix: string): string {
    (if r.tag.Some? then ":" + r.tag.value else "") + Tail(r, suffix)
  }

  lemma TagThere(s: string, at: nat, r: DockerReference, suffix: string)
    requires at <= |s| && WellFormed(r) && Ends(suffix) && (suffix == "" || r.digest.Some?) && s[at..] == TagTail(r, suffix)
    ensures at < |s| ==> s[at] in {':', '@'}
    ensures ParseTag(s, at, r.(tag := None, digest := None)) == Some(r)
  {
    hide Until, TagTail, Tail, ParseDigest;
    var tail := Tail(r, suffix);
    TailStarts(r, suffix);
    if r.tag.Some? {
      Onward(s, at, ':', r.tag.value + tail);
      UntilThere(s, at + 1, r.tag.value, tail, {'@'});
      if r.digest.Some? {
        DigestThere(s, at + 1 + |r.tag.value|, r, suffix);
      } else {
        NoTail(r);
      }
    } else if r.digest.Some? {
      DigestThere(s, at, r, suffix);
    } else {
      NoTail(r);
    }
  }

  lemma NoTail(r: DockerReference)
    requires r.digest.None?
    ensures Tail(r, "") == ""
  {
  }

  /**
   The parse is the only way to match that keeps the end of the string, and any way at all if
   there is a digest.
   */
  lemma ParseIsTheFit(s: string, r: DockerReference, suffix: string)
    requires Fits(s, r, suffix) && (suffix == "" || r.digest.Some?)
    ensures FromStr(s) == Some(r)
  {
    hide ParseTag, Until, TagTail, Str, Without;
    var tail := TagTail(r, suffix);
    Pieces(r, suffix);
    TailStarts(r, suffix);
    HeadThere(s, r.registry, r.repository, tail);
    TagThere(s, |r.registry| + 1 + |r.repository|, r, suffix);
  }

  lemma Pieces(r: DockerReference, suffix: string)
    ensures Str(r) + suffix == r.registry + (['/'] + (r.repository + TagTail(r, suffix)))
  {
  }

  lemma TailStarts(r: DockerReference, suffix: string)
    requires suffix == "" || r.digest.Some?
    ensures TagTail(r, suffix) == "" || TagTail(r, suffix)[0] in {':', '@'}
    ensures Tail(r, suffix) == "" || Tail(r, suffix)[0] == '@'
    ensures r.tag.Some? ==> TagTail(r, suffix) == [':'] + (r.tag.value + Tail(r, suffix))
    ensures r.tag.None? ==> TagTail(r, suffix) == Tail(r, suffix)
  {
  }

  /** Where the registry and the repository end. */
  lemma HeadThere(s: string, registry: string, repository: string, tail: string)
    requires s == registry + (['/'] + (repository + tail)) && Without(registry, {'/'}) && Without(repository, {':', '@'})
    requires tail == "" || tail[0] in {':', '@'}
    ensures var slash, at := |registry|, |registry| + 1 + |repository|;
            && slash < |s| && Until(s, 0, {'/'}) == slash && s[..slash] == registry
            && at <= |s| && Until(s, slash + 1, {':', '@'}) == at && s[slash + 1..at] == repository && s[at..] == tail
  {
    hide Until;
    var slash := |registry|;
    assert s[0..] == s && s[0..slash] == s[..slash];
    UntilThere(s, 0, registry, ['/'] + (repository + tail), {'/'});
    Onward(s, slash, '/', repository + tail);
    UntilThere(s, slash + 1, repository, tail, {':', '@'});
  }

  /** Without a digest, a newline at the end becomes part of the last group. */
  lemma NewlineIsSwallowed(s: string, r: DockerReference)
    requires Fits(s, r, "\n") && r.digest.None?
    ensures FromStr(s) == Some(if r.tag.Some? then r.(tag := Some(r.tag.value + "\n")) else r.(repository := r.repository + "\n"))
  {
    var r' := if r.tag.Some? then r.(tag := Some(r.tag.value + "\n")) else r.(repository := r.repository + "\n");
    assert Str(r') == Str(r) + "\n" == s == s + "";
    ParseIsTheFit(s, r', "");
  }

  /** Whatever is parsed fits the pattern, and it printed gives the string up to a newline after a digest. */
  lemma ParseFits(s: string)
    requires FromStr(s).Some?
    ensures var r := FromStr(s).value;
            && Fits(s, r, if Str(r) == s then "" else "\n")
            && (Str(r) == s <==> r.digest.None? || s[|s| - 1] != '\n')
  {
    hide ParseTag, Str, TagTail;
    var slash := Until(s, 0, {'/'});
    var at := Until(s, slash + 1, {':', '@'});
    var r := FromStr(s).value;
    TagFits(s, at, DockerReference(s[..slash], s[slash + 1..at], None, None));
    assert s[0..slash] == s[..slash];
    Rebuilt(s, slash, at, r);
    if r.digest.Some? {
      DigestEnds(r);
    }
  }

  lemma Rebuilt(s: string, slash: nat, at: nat, r: DockerReference)
    requires slash < |s| && s[slash] == '/' && slash < at <= |s| && r.registry == s[..slash] && r.repository == s[slash + 1..at]
    ensures s[at..] == TagTail(r, "") ==> s == Str(r)
    ensures s[at..] == TagTail(r, "") + "\n" ==> s == Str(r) + "\n" && s[|s| - 1] == '\n'
  {
    assert s == s[..slash] + "/" + s[slash + 1..at] + s[at..];
    Pieces(r, "");
    assert Str(r) + "" == Str(r);
  }

  lemma DigestEnds(r: DockerReference)
    requires r.digest.Some? && r.digest.value != "" && Without(r.digest.value, {'\n'})
    ensures var s := Str(r); s != "" && s[|s| - 1] != '\n'
  {
    var s := Str(r);
    assert s[|s| - 1] == r.digest.value[|r.digest.value| - 1] && s[|s| - 1] in r.digest.value;
  }

  lemma TagFits(s: string, at: nat, r: DockerReference)
    requires at <= |s| && (at < |s| ==> s[at] in {':', '@'}) && r.tag.None? && r.digest.None?
    requires ParseTag(s, at, r).Some?
    ensures var p := ParseTag(s, at, r).value;
            && p.registry == r.registry && p.repository == r.repository
            && (p.tag.Some? ==> p.tag.value != "" && Without(p.tag.value, {'@'}))
            && (p.digest.Some? ==> p.digest.value != "" && Without(p.digest.value, {'\n'}))
            && (s[at..] == TagTail(p, "") || (p.digest.Some? && s[at..] == TagTail(p, "") + "\n"))
  {
    if at < |s| {
      if s[at] == '@' {
        DigestFits(s, at, r);
      } else {
        var end := Until(s, at + 1, {'@'});
        assert s[at..] == ":" + s[at + 1..end] + s[end..];
        if end < |s| {
          DigestFits(s, end, r.(tag := Some(s[at + 1..end])));
        }
      }
    }
  }

  lemma DigestFits(s: string, at: nat, r: DockerReference)
    requires at < |s| && s[at] == '@' && ParseDigest(s, at, r).Some?
    ensures var d := ParseDigest(s, at, r).value.digest;
            && d.Some? && d.value != "" && Without(d.value, {'\n'})
            && (s[at..] == "@" + d.value || s[at..] == "@" + d.value + "\n")
  {
    var end := Until(s, at + 1, {'\n'});
    assert s[at..] == "@" + s[at + 1..end] + s[end..];
    assert end == |s| - 1 ==> s[end..] == "\n";
  }

  /** Printing and parsing gives back exactly the references that are well formed. */
  lemma PrintedParses(r: DockerReference)
    ensures FromStr(Str(r)) == Some(r) <==> WellFormed(r)
  {
    if WellFormed(r) {
      assert Str(r) + "" == Str(r);
      ParseIsTheFit(Str(r), r, "");
    } else if FromStr(Str(r)).Some? {
      ParseFits(Str(r));
    }
  }

  /** How the four kinds of references are written. */
  lemma PrintedForms(r: DockerReference)
    ensures r.tag.None? && r.digest.None? ==> Str(r) == r.registry + "/" + r.repository
    ensures r.tag.Some? && r.digest.None? ==> Str(r) == r.registry + "/" + r.repository + ":" + r.tag.value
    ensures r.tag.None? && r.digest.Some? ==> Str(r) == r.registry + "/" + r.repository + "@" + r.digest.value
    ensures r.tag.Some? && r.digest.Some? ==> Str(r) == r.registry + "/" + r.repository + ":" + r.tag.value + "@" + r.digest.value
  {
  }

  /** Only the first slash, the first colon behind it and the first at sign separate; the rest belongs to the groups. */
  lemma SeparatorsInside()
    ensures FromStr("r:5/a/b:t:1/c@s:2@3") == Some(DockerReference("r:5", "a/b", Some("t:1/c"), Some("s:2@3")))
  {
    hide FromStr, Without;
    var r := DockerReference("r:5", "a/b", Some("t:1/c"), Some("s:2@3"));
    Lacks3('r', ':', '5', {'/'});
    Lacks3('a', '/', 'b', {':', '@'});
    Lacks5('t', ':', '1', '/', 'c', {'@'});
    Lacks5('s', ':', '2', '@', '3', {'\n'});
    assert Str(r) + "" == "r:5/a/b:t:1/c@s:2@3";
    ParseIsTheFit("r:5/a/b:t:1/c@s:2@3", r, "");
  }

  lemma Lacks3(a: char, b: char, c: char, stops: set<char>)
    requires a !in stops && b !in stops && c !in stops
    ensures Without([a, b, c], stops)
  {
  }

  lemma Lacks5(a: char, b: char, c: char, d: char, e: char, stops: set<char>)
    requires a !in stops && b !in stops && c !in stops && d !in stops && e !in stops
    ensures Without([a, b, c, d, e], stops)
  {
  }

  /** A string parses if and only if the pattern can be matched at all. */
  lemma ParsesIffFits(s: string)
    ensures FromStr(s).Some? <==> exists r, suffix :: Fits(s, r, suffix)
  {
    if FromStr(s).Some? {
      ParseFits(s);
    }
    if r, suffix :| Fits(s, r, suffix) {
      if suffix == "" || r.digest.Some? {
        ParseIsTheFit(s, r, suffix);
      } else {
        NewlineIsSwallowed(s, r);
      }
    }
  }
}
