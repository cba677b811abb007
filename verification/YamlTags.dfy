/** Tag directives, by which parser and emitter stand a short handle for a long prefix. */
module YamlTags {
  const DEFAULT_TAG_DIRECTIVES := [("!", "!"), ("!!", "tag:yaml.org,2002:")]

  /** The expansion of a tag handle, by the first directive that defines it. */
  function Expand(directives: seq<(string, string)>, handle: string, suffix: string): string {
    if directives == [] then ""
    else if directives[0].0 == handle then directives[0].1 + suffix
    else Expand(directives[1..], handle, suffix)
  }

  predicate Declares(directives: seq<(string, string)>, handle: string) {
    exists t | t in directives :: t.0 == handle
  }

  predicate DeclaresAll(directives: seq<(string, string)>, defaults: seq<(string, string)>) {
    forall i | 0 <= i < |defaults| :: Declares(directives, defaults[i].0)
  }

  function WithDefault(dirs: seq<(string, string)>, d: (string, string)): seq<(string, string)> {
    if Declares(dirs, d.0) then dirs else dirs + [d]
  }

  /** The directives of a document, and the default ones it does not replace. */
  function InForce(own: seq<(string, string)>): seq<(string, string)> {
    WithDefault(WithDefault(own, DEFAULT_TAG_DIRECTIVES[0]), DEFAULT_TAG_DIRECTIVES[1])
  }

  /** No handle is empty, and none is declared twice. */
  predicate Named(directives: seq<(string, string)>) {
    forall i :: 0 <= i < |directives| ==> directives[i].0 != "" && !Declares(directives[..i], directives[i].0)
  }

  lemma NamedAdded(directives: seq<(string, string)>, d: (string, string))
    requires Named(directives) && d.0 != "" && !Declares(directives, d.0)
    ensures Named(directives + [d])
  {
    hide Declares;
    var all := directives + [d];
    forall i | 0 <= i < |all| ensures all[i].0 != "" && !Declares(all[..i], all[i].0) {
      assert all[..i] == directives[..i];
    }
  }

  lemma NamedInForce(own: seq<(string, string)>)
    requires Named(own)
    ensures Named(InForce(own))
  {
    hide Named, Declares;
    var some := WithDefault(own, DEFAULT_TAG_DIRECTIVES[0]);
    if some != own { NamedAdded(own, DEFAULT_TAG_DIRECTIVES[0]); }
    if InForce(own) != some { NamedAdded(some, DEFAULT_TAG_DIRECTIVES[1]); }
  }

  /** Where no handle is declared twice, the handle of a directive expands to its prefix. */
  lemma {:induction false} ExpandNamed(directives: seq<(string, string)>, k: nat, suffix: string)
    requires Named(directives) && k < |directives|
    ensures Expand(directives, directives[k].0, suffix) == directives[k].1 + suffix
  {
    if k > 0 {
      NamedTail(directives);
      assert directives[0] in directives[..k];
      ExpandNamed(directives[1..], k - 1, suffix);
    }
  }

  lemma {:induction false} ExpandBehind(directives: seq<(string, string)>, d: (string, string), handle: string,
                                        suffix: string)
    ensures Expand(directives + [d], handle, suffix) ==
            if Declares(directives, handle) then Expand(directives, handle, suffix)
            else if d.0 == handle then d.1 + suffix else ""
  {
    if directives != [] {
      assert (directives + [d])[1..] == directives[1..] + [d];
      ExpandBehind(directives[1..], d, handle, suffix);
      assert forall t :: t in directives <==> t == directives[0] || t in directives[1..];
    }
  }

  /** What the handles stand for: "!" for itself and "!!" for the tags of YAML, unless the
      document says otherwise, and others for what the document says. */
  lemma {:induction false} HandlesMean(own: seq<(string, string)>, handle: string, suffix: string)
    ensures Expand(InForce(own), handle, suffix) ==
            if Declares(own, handle) then Expand(own, handle, suffix)
            else if handle == "!" then "!" + suffix
            else if handle == "!!" then "tag:yaml.org,2002:" + suffix
            else ""
  {
    hide Expand, Declares;
    var first, second := DEFAULT_TAG_DIRECTIVES[0], DEFAULT_TAG_DIRECTIVES[1];
    var some := WithDefault(own, first);
    ExpandBehind(own, first, handle, suffix);
    ExpandBehind(some, second, handle, suffix);
    DeclaresBehind(own, first, handle);
    if !Declares(own, handle) { ExpandUndeclared(own, handle, suffix); }
    if !Declares(some, handle) { ExpandUndeclared(some, handle, suffix); }
  }

  lemma DeclaresBehind(directives: seq<(string, string)>, d: (string, string), handle: string)
    ensures Declares(directives + [d], handle) <==> Declares(directives, handle) || d.0 == handle
  {
    assert d in directives + [d];
    assert forall t :: t in directives + [d] <==> t in directives || t == d;
  }

  lemma {:induction false} ExpandUndeclared(directives: seq<(string, string)>, handle: string, suffix: string)
    requires !Declares(directives, handle)
    ensures Expand(directives, handle, suffix) == ""
  {
    if directives != [] {
      assert directives[0] in directives;
      ExpandUndeclared(directives[1..], handle, suffix);
    }
  }

  /** A tag as handle and suffix, by the first directive whose prefix it has. */
  function Split(directives: seq<(string, string)>, tag: string): (string, string) {
    if directives == [] then ("", tag)
    else if directives[0].1 <= tag then (directives[0].0, tag[|directives[0].1|..])
    else Split(directives[1..], tag)
  }

  /** What is split is expanded again. */
  lemma {:induction false} SplitExpands(directives: seq<(string, string)>, k: nat, tag: string)
    requires Named(directives) && k <= |directives|
    ensures var (handle, suffix) := Split(directives[k..], tag);
            if handle == "" then suffix == tag else Expand(directives, handle, suffix) == tag
    decreases |directives| - k
  {
    hide Named, Expand;
    if k < |directives| {
      assert directives[k..][1..] == directives[k + 1..];
      if directives[k].1 <= tag {
        assert directives[k].0 != "" by { HandleNamed(directives, k); }
        ExpandNamed(directives, k, tag[|directives[k].1|..]);
      } else {
        SplitExpands(directives, k + 1, tag);
      }
    }
  }

  lemma HandleNamed(directives: seq<(string, string)>, k: nat)
    requires Named(directives) && k < |directives|
    ensures directives[k].0 != ""
  {
  }

  predicate FirstPrefix(directives: seq<(string, string)>, k: nat, tag: string) {
    k < |directives| && directives[k].1 <= tag && forall i :: 0 <= i < k ==> !(directives[i].1 <= tag)
  }

  lemma FirstPrefixNext(directives: seq<(string, string)>, k: nat, tag: string)
    requires directives != [] && !(directives[0].1 <= tag)
    ensures FirstPrefix(directives, k + 1, tag) <==> FirstPrefix(directives[1..], k, tag)
    ensures !FirstPrefix(directives, 0, tag)
  {
    var rest := directives[1..];
    assert forall i :: 0 <= i < |rest| ==> rest[i] == directives[i + 1];
    if FirstPrefix(rest, k, tag) {
      forall i | 0 <= i < k + 1 ensures !(directives[i].1 <= tag) { if i > 0 { assert rest[i - 1] == directives[i]; } }
    }
  }

  /** Nothing is left of a tag behind its handle exactly when it is the whole prefix of
      the first directive that fits. */
  lemma {:induction false} NothingLeft(directives: seq<(string, string)>, tag: string)
    requires Named(directives)
    ensures Split(directives, tag).0 != "" && Split(directives, tag).1 == "" <==>
            exists k: nat :: FirstPrefix(directives, k, tag) && directives[k].1 == tag
    decreases |directives|
  {
    if directives != [] {
      hide Named;
      HandleNamed(directives, 0);
      if directives[0].1 <= tag {
        if tag == directives[0].1 { assert FirstPrefix(directives, 0, tag); }
      } else {
        hide FirstPrefix;
        NamedTail(directives);
        NothingLeft(directives[1..], tag);
        NoneBefore(directives, tag);
      }
    }
  }

  /** A directive that does not fit makes no difference to which is the first that does. */
  lemma NoneBefore(directives: seq<(string, string)>, tag: string)
    requires directives != [] && !(directives[0].1 <= tag)
    ensures (exists k: nat :: FirstPrefix(directives, k, tag) && directives[k].1 == tag) <==>
            exists k: nat :: FirstPrefix(directives[1..], k, tag) && directives[1..][k].1 == tag
  {
    var rest := directives[1..];
    if k: nat :| FirstPrefix(rest, k, tag) && rest[k].1 == tag {
      FirstPrefixNext(directives, k, tag);
      assert directives[k + 1].1 == tag;
    }
    if k: nat :| FirstPrefix(directives, k, tag) && directives[k].1 == tag {
      FirstPrefixNext(directives, 0, tag);
      FirstPrefixNext(directives, k - 1, tag);
      assert rest[k - 1].1 == tag;
    }
  }

  lemma NamedTail(directives: seq<(string, string)>)
    requires Named(directives) && directives != []
    ensures Named(directives[1..])
  {
    var rest := directives[1..];
    forall i | 0 <= i < |rest| ensures rest[i].0 != "" && !Declares(rest[..i], rest[i].0) {
      assert rest[i] == directives[i + 1];
      assert forall t | t in rest[..i] :: t in directives[..i + 1];
    }
  }
}
