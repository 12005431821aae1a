/** The descriptor store: finds the descriptor document `<model>.yaml` in a
    traversal of the working copy. */
module ToniesJsonRepo {
  import opened Wrappers

  /** One step of the directory walk: a directory and the file names directly in it.
      The walk itself is given as a sequence of steps, in traversal order. */
  datatype WalkStep = WalkStep(root: string, files: seq<string>)

  /** Extension of descriptor documents. */
  const YamlExtension: string := ".yaml"

  /** POSIX `os.path.join` of two components: an absolute second component
      replaces the first; otherwise a `/` separates them unless the first is
      empty or already ends with one. */
  function Join(root: string, name: string): (p: string)
    ensures |name| > 0 ==> |p| > 0
  {
    if |name| > 0 && name[0] == '/' then name
    else if |root| == 0 || root[|root| - 1] == '/' then root + name
    else root + "/" + name
  }

  /** The file name `model` is looked up under. */
  function YamlName(model: string): string {
    model + YamlExtension
  }

  /** Every path the walk can produce. */
  function Paths(walk: seq<WalkStep>): set<string> {
    set i, n | 0 <= i < |walk| && n in walk[i].files :: Join(walk[i].root, n)
  }

  /** `i` is the first step of the walk listing `name`. */
  predicate FirstStepWith(walk: seq<WalkStep>, name: string, i: int) {
    && 0 <= i < |walk|
    && name in walk[i].files
    && forall j :: 0 <= j < i ==> name !in walk[j].files
  }

  /** First-match search of the walk for the exact file name `name`: the
      directories in walk order, and the files of each in listing order. */
  function FindInWalk(walk: seq<WalkStep>, name: string): (r: Option<string>)
    ensures r.None? <==> forall i :: 0 <= i < |walk| ==> name !in walk[i].files
    ensures r.Some? ==> exists i :: FirstStepWith(walk, name, i) && r.value == Join(walk[i].root, name)
    decreases |walk|
  {
    if |walk| == 0 then None
    else if name in walk[0].files then
      assert FirstStepWith(walk, name, 0);
      Some(Join(walk[0].root, name))
    else
      var r := FindInWalk(walk[1..], name);
      assert r.None? ==> forall i :: 0 <= i < |walk| ==> name !in walk[i].files by {
        if r.None? {
          forall i | 0 <= i < |walk| ensures name !in walk[i].files {
            if i > 0 { assert walk[i] == walk[1..][i - 1]; }
          }
        }
      }
      assert r.Some? ==> exists i :: FirstStepWith(walk, name, i) && r.value == Join(walk[i].root, name) by {
        if r.Some? {
          var i :| FirstStepWith(walk[1..], name, i) && r.value == Join(walk[1..][i].root, name);
          assert FirstStepWith(walk, name, i + 1);
        }
      }
      r
  }

  /** No file anywhere in the walk is named `name`. */
  predicate Absent(walk: seq<WalkStep>, name: string) {
    forall i, j :: 0 <= i < |walk| && 0 <= j < |walk[i].files| ==> walk[i].files[j] != name
  }

  /** File `j` of directory `i` is the first file named `name` in traversal
      order: no earlier directory lists it, and no earlier file of directory `i`
      has the name. */
  predicate FirstFileAt(walk: seq<WalkStep>, name: string, i: int, j: int) {
    && 0 <= i < |walk| && 0 <= j < |walk[i].files|
    && walk[i].files[j] == name
    && (forall i' :: 0 <= i' < i ==> name !in walk[i'].files)
    && (forall j' :: 0 <= j' < j ==> walk[i].files[j'] != name)
  }

  /** `find_yaml_by_model`: an empty or absent model finds nothing, whatever the
      walk; otherwise the result is the path of the first file, in traversal
      order, whose name is exactly `model + ".yaml"`, joined to its directory,
      and there is no result exactly when no such file exists. */
  function FindYamlByModel(model: Option<string>, walk: seq<WalkStep>): (r: Option<string>)
    ensures model.None? || model.value == "" ==> r.None?
    ensures model.Some? && model.value != "" ==> (r.None? <==> Absent(walk, YamlName(model.value)))
    ensures r.Some? ==>
      && model.Some? && model.value != ""
      && exists i, j :: FirstFileAt(walk, YamlName(model.value), i, j) && r.value == Join(walk[i].root, walk[i].files[j])
    ensures r.Some? ==> r.value in Paths(walk) && |r.value| > 0
  {
    if model.None? || model.value == "" then None
    else
      var r := FindInWalk(walk, YamlName(model.value));
      NotFoundInWalk(walk, YamlName(model.value));
      if r.Some? then
        assert !Absent(walk, YamlName(model.value));
        FoundInWalk(walk, YamlName(model.value));
        r
      else r
  }

  /** A walk search finds nothing exactly when no file of the walk has the name. */
  lemma NotFoundInWalk(walk: seq<WalkStep>, name: string)
    ensures FindInWalk(walk, name).None? <==> Absent(walk, name)
  {
  }

  /** A walk search that finds the name returns the first matching (directory,
      file) pair in traversal order, joined: a path of the walk. */
  lemma FoundInWalk(walk: seq<WalkStep>, name: string)
    requires exists i :: 0 <= i < |walk| && name in walk[i].files
    ensures FindInWalk(walk, name).Some?
    ensures exists i, j :: FirstFileAt(walk, name, i, j) && FindInWalk(walk, name).value == Join(walk[i].root, walk[i].files[j])
    ensures FindInWalk(walk, name).value in Paths(walk)
  {
    var p := FindInWalk(walk, name).value;
    var i :| FirstStepWith(walk, name, i) && p == Join(walk[i].root, name);
    var j := FirstIndex(walk[i].files, name);
    assert FirstFileAt(walk, name, i, j);
    assert p == Join(walk[i].root, walk[i].files[j]);
    assert p in Paths(walk);
  }

  /** Index of the first occurrence of `x` in `s`. */
  function FirstIndex(s: seq<string>, x: string): (j: nat)
    requires x in s
    ensures j < |s| && s[j] == x
    ensures forall j' :: 0 <= j' < j ==> s[j'] != x
  {
    if s[0] == x then 0 else 1 + FirstIndex(s[1..], x)
  }
}
