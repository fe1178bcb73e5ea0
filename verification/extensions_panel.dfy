/**
 * The extensions panel: a fixed catalogue of language images, the installed
 * status each entry gets from the local image tags, the search filter, the
 * installed/available split, and the tags handed to pull and remove.
 */
module ExtensionsPanel {
  import opened Wrappers
  import opened Strings
  import Images

  datatype Category = LanguageImage | FrameworkImage | ToolImage

  datatype Entry = Entry(
    id: string,
    name: string,
    description: string,
    versions: seq<string>,
    installed: bool,
    installedVersion: Option<string>,
    category: Category)

  /** The catalogue as shipped: nothing installed yet. */
  const Catalogue: seq<Entry> := [
    Entry("python", "Python", "Langage polyvalent idéal pour débuter", ["3.12", "3.11", "3.10", "3.9"], false, None, LanguageImage),
    Entry("node", "Node.js", "JavaScript côté serveur", ["22", "20-lts", "18-lts"], false, None, LanguageImage),
    Entry("openjdk", "Java (OpenJDK)", "Langage orienté objet robuste", ["21", "17", "11"], false, None, LanguageImage),
    Entry("golang", "Go", "Langage moderne et performant", ["1.22", "1.21", "1.20"], false, None, LanguageImage),
    Entry("rust", "Rust", "Langage système sûr et performant", ["latest", "1.75", "1.74"], false, None, LanguageImage),
    Entry("gcc", "C/C++ (GCC)", "Compilateur C/C++ GNU", ["14", "13", "12"], false, None, LanguageImage),
    Entry("ruby", "Ruby", "Langage élégant et productif", ["3.3", "3.2", "3.1"], false, None, LanguageImage),
    Entry("php", "PHP", "Langage web populaire", ["8.3", "8.2", "8.1"], false, None, LanguageImage)
  ]


  /** Catalogue ids are distinct and contain no `:`, and every entry offers a version. */
  lemma CatalogueWellFormed()
    ensures forall i, j :: 0 <= i < j < |Catalogue| ==> Catalogue[i].id != Catalogue[j].id
    ensures forall i :: 0 <= i < |Catalogue| ==> NoneIn(Catalogue[i].id, Colon) && |Catalogue[i].versions| > 0
  {
  }

  // ---------------------------------------------------------------------------
  // Installed status
  // ---------------------------------------------------------------------------

  /** `tags.find(tag => tag.startsWith(prefix))`: the first tag with that prefix. */
  function FindTag(tags: seq<string>, prefix: string): (r: Option<string>)
    ensures r.None? <==> forall i :: 0 <= i < |tags| ==> !StartsWith(tags[i], prefix)
    ensures r.Some? ==> exists i :: (0 <= i < |tags| && tags[i] == r.value && StartsWith(tags[i], prefix) &&
      forall j :: 0 <= j < i ==> !StartsWith(tags[j], prefix))
    decreases |tags|
  {
    if |tags| == 0 then None
    else if StartsWith(tags[0], prefix) then Some(tags[0])
    else
      var r := FindTag(tags[1..], prefix);
      if r.Some? then
        var i :| 0 <= i < |tags[1..]| && tags[1..][i] == r.value && StartsWith(tags[1..][i], prefix) &&
          forall j :: 0 <= j < i ==> !StartsWith(tags[1..][j], prefix);
        assert tags[i + 1] == r.value && forall j :: 1 <= j < i + 1 ==> tags[j] == tags[1..][j - 1];
        r
      else
        assert forall i :: 1 <= i < |tags| ==> tags[i] == tags[1..][i - 1];
        r
  }

  /** `tag.split(':')[1]`: the text between the first and the second `:`, undefined without a `:`. */
  function SecondField(tag: string): (field: Option<string>)
    ensures field.Some? <==> CountIn(tag, Colon) > 0
    ensures field.Some? ==> NoneIn(field.value, Colon)
  {
    var parts := Split(tag, Colon);
    if |parts| > 1 then Some(parts[1]) else None
  }

  /** The tag that names `version` of repository `id`. */
  function RepoTag(id: string, version: string): (tag: string)
    ensures StartsWith(tag, id + ":")
  {
    id + ":" + version
  }

  /** For a colon-free id and version, the second field of their tag is the version. */
  lemma {:induction false} SecondFieldOfRepoTag(id: string, version: string)
    requires NoneIn(id, Colon) && NoneIn(version, Colon)
    ensures SecondField(RepoTag(id, version)) == Some(version)
  {
    var tag := RepoTag(id, version);
    JoinSplit(tag, ':');
    var parts := [id, version];
    assert Join(parts, ':') == tag by {
      assert Join(parts[1..], ':') == version;
    }
    SplitJoin(parts, ':');
  }

  lemma TaggedNameHasColon(tags: seq<string>, id: string)
    ensures FindTag(tags, id + ":").Some? ==> CountIn(FindTag(tags, id + ":").value, Colon) > 0
  {
    var found := FindTag(tags, id + ":");
    if found.Some? {
      var tag := found.value;
      assert tag[..|id| + 1] == id + ":";
      assert tag[|id|] == ':';
      CountInZero(tag, Colon);
    }
  }

  /** One entry's status, recomputed from the tags. */
  function WithStatus(e: Entry, tags: seq<string>): (e': Entry)
    ensures e'.installed <==> exists i :: 0 <= i < |tags| && StartsWith(tags[i], e.id + ":")
    ensures e'.installedVersion.Some? ==> e'.installed
    ensures e'.installed ==> e'.installedVersion.Some?
    ensures e' == e.(installed := e'.installed, installedVersion := e'.installedVersion)
  {
    var found := FindTag(tags, e.id + ":");
    var version := match found case Some(tag) => SecondField(tag) case None => None;
    TaggedNameHasColon(tags, e.id);
    e.(installed := found.Some?, installedVersion := version)
  }

  /** An image tagged `id:v` (and no earlier tag of `id`) marks the entry installed at version `v`. */
  lemma InstalledVersionFromTag(e: Entry, before: seq<string>, version: string, after: seq<string>)
    requires NoneIn(e.id, Colon) && NoneIn(version, Colon)
    requires forall i :: 0 <= i < |before| ==> !StartsWith(before[i], e.id + ":")
    ensures var e' := WithStatus(e, before + [RepoTag(e.id, version)] + after);
      e'.installed && e'.installedVersion == Some(version)
  {
    var tags := before + [RepoTag(e.id, version)] + after;
    var found := FindTag(tags, e.id + ":");
    assert tags[|before|] == RepoTag(e.id, version) && StartsWith(tags[|before|], e.id + ":");
    var i :| 0 <= i < |tags| && tags[i] == found.value && StartsWith(tags[i], e.id + ":") &&
      forall j :: 0 <= j < i ==> !StartsWith(tags[j], e.id + ":");
    assert tags[|before|] == RepoTag(e.id, version);
    assert i == |before|;
    SecondFieldOfRepoTag(e.id, version);
  }

  function Refresh(entries: seq<Entry>, tags: seq<string>): (r: seq<Entry>)
    ensures |r| == |entries|
    ensures forall i :: 0 <= i < |entries| ==> r[i] == WithStatus(entries[i], tags)
  {
    seq(|entries|, i requires 0 <= i < |entries| => WithStatus(entries[i], tags))
  }

  /** The panel's state: the entries and the tags found installed. */
  datatype Panel = Panel(entries: seq<Entry>, installedTags: seq<string>)

  const Initial: Panel := Panel(Catalogue, [])

  /**
   * `loadInstalledImages()`: with an image listing, the tags are every image's
   * tags in order and every entry's status is recomputed from them; a failed
   * listing leaves the panel as it was.
   */
  function LoadInstalledImages(p: Panel, listing: Option<seq<Images.ImageSummary>>): (p': Panel)
    ensures listing.None? ==> p' == p
    ensures listing.Some? ==> p'.installedTags == Images.AllTags(listing.value)
    ensures listing.Some? ==> |p'.entries| == |p.entries|
    ensures listing.Some? ==> forall i :: 0 <= i < |p.entries| ==> (p'.entries[i].installed <==>
      exists t :: t in Images.AllTags(listing.value) && StartsWith(t, p.entries[i].id + ":"))
  {
    match listing
    case None => p
    case Some(images) =>
      var tags := Images.AllTags(images);
      var entries := Refresh(p.entries, tags);
      assert forall i :: 0 <= i < |p.entries| ==> (entries[i].installed <==>
        exists k :: 0 <= k < |tags| && StartsWith(tags[k], p.entries[i].id + ":"));
      Panel(entries, tags)
  }

  // ---------------------------------------------------------------------------
  // Search and the two lists
  // ---------------------------------------------------------------------------

  /** The search keeps an entry whose lowercased name or description contains the lowercased term. */
  predicate Matches(e: Entry, term: string) {
    Contains(Lower(e.name), Lower(term)) || Contains(Lower(e.description), Lower(term))
  }

  lemma EmptySearchMatches(e: Entry)
    ensures Matches(e, "")
  {
    assert StartsWith(Lower(e.name), Lower(""));
  }

  /** `xs.filter(keep)`: the elements kept, in order. */
  function Select(xs: seq<Entry>, keep: Entry -> bool): (r: seq<Entry>)
    ensures forall x :: x in r <==> x in xs && keep(x)
    ensures |r| <= |xs|
    decreases |xs|
  {
    if |xs| == 0 then []
    else if keep(xs[0]) then [xs[0]] + Select(xs[1..], keep)
    else Select(xs[1..], keep)
  }

  /** Selecting by a predicate and by its negation splits a sequence without loss or overlap. */
  lemma {:induction false} SelectPartition(xs: seq<Entry>, keep: Entry -> bool)
    ensures multiset(Select(xs, keep)) + multiset(Select(xs, x => !keep(x))) == multiset(xs)
    decreases |xs|
  {
    if |xs| > 0 {
      SelectPartition(xs[1..], keep);
      var drop := (x: Entry) => !keep(x);
      assert xs == [xs[0]] + xs[1..];
      assert multiset(xs) == multiset([xs[0]]) + multiset(xs[1..]);
      if keep(xs[0]) {
        assert Select(xs, keep) == [xs[0]] + Select(xs[1..], keep);
        assert Select(xs, drop) == Select(xs[1..], drop);
      } else {
        assert Select(xs, keep) == Select(xs[1..], keep);
        assert Select(xs, drop) == [xs[0]] + Select(xs[1..], drop);
      }
    }
  }

  /** An element that passes every test is kept: selecting with an always-true test is the identity. */
  lemma {:induction false} SelectAll(xs: seq<Entry>, keep: Entry -> bool)
    requires forall i :: 0 <= i < |xs| ==> keep(xs[i])
    ensures Select(xs, keep) == xs
    decreases |xs|
  {
    if |xs| > 0 {
      SelectAll(xs[1..], keep);
    }
  }

  function Filtered(p: Panel, term: string): (r: seq<Entry>)
    ensures forall e :: e in r <==> e in p.entries && Matches(e, term)
  {
    Select(p.entries, e => Matches(e, term))
  }

  /** An empty search shows every entry, in catalogue order. */
  lemma EmptySearchKeepsAll(p: Panel)
    ensures Filtered(p, "") == p.entries
  {
    forall e | true ensures Matches(e, "") {
      EmptySearchMatches(e);
    }
    SelectAll(p.entries, e => Matches(e, ""));
  }

  function InstalledList(p: Panel, term: string): (r: seq<Entry>)
    ensures forall e :: e in r <==> e in Filtered(p, term) && e.installed
  {
    Select(Filtered(p, term), (e: Entry) => e.installed)
  }

  function AvailableList(p: Panel, term: string): (r: seq<Entry>)
    ensures forall e :: e in r <==> e in Filtered(p, term) && !e.installed
  {
    Select(Filtered(p, term), (e: Entry) => !e.installed)
  }

  /** The two lists split the filtered entries: each one lands in exactly one list. */
  lemma ListsPartitionFiltered(p: Panel, term: string)
    ensures multiset(InstalledList(p, term)) + multiset(AvailableList(p, term)) == multiset(Filtered(p, term))
    ensures forall e :: e in InstalledList(p, term) ==> e !in AvailableList(p, term)
  {
    var keep := (e: Entry) => e.installed;
    SelectPartition(Filtered(p, term), keep);
    assert Select(Filtered(p, term), x => !keep(x)) == AvailableList(p, term) by {
      SelectSame(Filtered(p, term), x => !keep(x), (e: Entry) => !e.installed);
    }
  }

  /** Two tests that agree everywhere select the same elements. */
  lemma {:induction false} SelectSame(xs: seq<Entry>, f: Entry -> bool, g: Entry -> bool)
    requires forall x :: f(x) == g(x)
    ensures Select(xs, f) == Select(xs, g)
    decreases |xs|
  {
    if |xs| > 0 {
      SelectSame(xs[1..], f, g);
    }
  }

  // ---------------------------------------------------------------------------
  // Install and uninstall
  // ---------------------------------------------------------------------------

  /** `installImage(id, version)` pulls `id:version`. */
  function InstallTag(id: string, version: string): (tag: string)
    ensures StartsWith(tag, id + ":") && tag[|id| + 1..] == version
  {
    RepoTag(id, version)
  }

  /** The first entry with a given id. */
  function FindEntry(entries: seq<Entry>, id: string): (r: Option<Entry>)
    ensures r.Some? ==> r.value in entries && r.value.id == id
    ensures r.None? <==> forall i :: 0 <= i < |entries| ==> entries[i].id != id
    decreases |entries|
  {
    if |entries| == 0 then None
    else if entries[0].id == id then Some(entries[0])
    else
      var r := FindEntry(entries[1..], id);
      assert forall i :: 1 <= i < |entries| ==> entries[i] == entries[1..][i - 1];
      r
  }

  /**
   * `uninstallImage(id)`: the tag removed is `id:<installed version>`; nothing
   * happens for an unknown id or an entry without a (non-empty) installed version.
   */
  function UninstallTag(p: Panel, id: string): (tag: Option<string>)
    ensures tag.Some? <==> (FindEntry(p.entries, id).Some? &&
      FindEntry(p.entries, id).value.installedVersion.Some? && FindEntry(p.entries, id).value.installedVersion.value != "")
    ensures tag.Some? ==> tag.value == RepoTag(id, FindEntry(p.entries, id).value.installedVersion.value)
  {
    match FindEntry(p.entries, id)
    case None => None
    case Some(e) =>
      match e.installedVersion
      case None => None
      case Some(v) => if v == "" then None else Some(RepoTag(id, v))
  }

  /** After installing `id:v` into an empty image store, uninstall removes exactly that tag. */
  lemma UninstallRemovesInstalledTag(p: Panel, i: nat, version: string)
    requires i < |p.entries| && forall j :: 0 <= j < i ==> p.entries[j].id != p.entries[i].id
    requires NoneIn(p.entries[i].id, Colon) && NoneIn(version, Colon) && version != ""
    ensures var id := p.entries[i].id;
      var p' := LoadInstalledImages(p, Some([Images.ImageSummary(Some([InstallTag(id, version)]))]));
      UninstallTag(p', id) == Some(InstallTag(id, version))
  {
    var id := p.entries[i].id;
    var images := [Images.ImageSummary(Some([InstallTag(id, version)]))];
    Images.SingleImageTags(InstallTag(id, version));
    var p' := LoadInstalledImages(p, Some(images));
    InstalledVersionFromTag(p.entries[i], [], version, []);
    assert [] + [RepoTag(id, version)] + [] == [RepoTag(id, version)];
    FindEntryAt(p'.entries, i);
  }

  /** With no earlier entry of the same id, the entry at `i` is the one found. */
  lemma {:induction false} FindEntryAt(entries: seq<Entry>, i: nat)
    requires i < |entries| && forall j :: 0 <= j < i ==> entries[j].id != entries[i].id
    ensures FindEntry(entries, entries[i].id) == Some(entries[i])
    decreases i
  {
    if i > 0 {
      FindEntryAt(entries[1..], i - 1);
    }
  }
}
