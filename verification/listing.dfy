/** The filesystem as the scripts see it: `os.listdir` results given as
    sequences (their order is whatever the operating system returns), and the
    effects a script would perform (`os.makedirs`, `shutil.copy2`) given as a
    plan of actions instead of being carried out. */
module Listing {

  /** One entry of a patient directory: its name, whether it is a directory, and
      the byte size `os.path.getsize` would report. */
  datatype Entry = Entry(name: string, isDir: bool, size: nat)

  /** One entry of a root directory, with the listing of its contents when it is
      a directory (`contents` is ignored for plain files). */
  datatype Folder = Folder(name: string, isDir: bool, contents: seq<Entry>)

  /** A path as the list of components `os.path.join` would join. */
  type Path = seq<string>

  datatype Action =
    | MakeDir(dir: Path)            // os.makedirs(dir, exist_ok=True)
    | CopyFile(src: Path, dst: Path) // shutil.copy2(src, dst), dst a file path

  /** Names in one directory listing are distinct. */
  predicate DistinctNames(root: seq<Folder>) {
    forall i, j :: 0 <= i < j < |root| ==> root[i].name != root[j].name
  }

  predicate HasName(contents: seq<Entry>, name: string) {
    exists i :: 0 <= i < |contents| && contents[i].name == name
  }

  /** The concatenation of the plans produced for each entry, in listing order. */
  function FlatMap<T, U>(s: seq<T>, f: T -> seq<U>): (r: seq<U>)
  {
    if |s| == 0 then [] else f(s[0]) + FlatMap(s[1..], f)
  }

  lemma {:induction false} FlatMapMember<T, U>(s: seq<T>, f: T -> seq<U>, x: U)
    ensures x in FlatMap(s, f) <==> exists i :: 0 <= i < |s| && x in f(s[i])
  {
    if |s| > 0 {
      FlatMapMember(s[1..], f, x);
      if x in FlatMap(s[1..], f) {
        var i :| 0 <= i < |s[1..]| && x in f(s[1..][i]);
        assert x in f(s[i + 1]);
      }
      if exists i :: 0 <= i < |s| && x in f(s[i]) {
        var i :| 0 <= i < |s| && x in f(s[i]);
        if i > 0 {
          assert x in f(s[1..][i - 1]);
        }
      }
    }
  }

  /** The path an action creates or writes. */
  function Target(a: Action): Path {
    match a
    case MakeDir(dir) => dir
    case CopyFile(_, dst) => dst
  }

  /** Every copy comes after an action creating the directory it writes into,
      as `shutil.copy2` needs. */
  predicate DirsFirst(plan: seq<Action>) {
    forall j :: 0 <= j < |plan| && plan[j].CopyFile? ==>
      |plan[j].dst| > 0 && MakeDir(plan[j].dst[..|plan[j].dst| - 1]) in plan[..j]
  }

  /** No action occurs twice in a plan. */
  predicate NoRepeats(plan: seq<Action>) {
    forall i, j :: 0 <= i < j < |plan| ==> plan[i] != plan[j]
  }

  /** Running one plan after another keeps directories ahead of their copies. */
  lemma DirsFirstConcat(a: seq<Action>, b: seq<Action>)
    requires DirsFirst(a) && DirsFirst(b)
    ensures DirsFirst(a + b)
  {
    forall j | 0 <= j < |a + b| && (a + b)[j].CopyFile?
      ensures |(a + b)[j].dst| > 0 && MakeDir((a + b)[j].dst[..|(a + b)[j].dst| - 1]) in (a + b)[..j]
    {
      if j < |a| {
        assert (a + b)[..j] == a[..j];
      } else {
        var d := b[j - |a|].dst;
        var i :| 0 <= i < j - |a| && b[..j - |a|][i] == MakeDir(d[..|d| - 1]);
        assert (a + b)[..j][|a| + i] == MakeDir(d[..|d| - 1]);
      }
    }
  }

  /** Plans that each create their directories first still do when they are
      run one after another. */
  lemma {:induction false} FlatMapDirsFirst<T>(s: seq<T>, f: T -> seq<Action>)
    requires forall i :: 0 <= i < |s| ==> DirsFirst(f(s[i]))
    ensures DirsFirst(FlatMap(s, f))
  {
    if |s| > 0 {
      FlatMapDirsFirst(s[1..], f);
      DirsFirstConcat(f(s[0]), FlatMap(s[1..], f));
    } else {
      assert FlatMap(s, f) == [];
    }
  }

  /** Two plans without repeats and without a common action make a plan
      without repeats. */
  lemma NoRepeatsConcat(a: seq<Action>, b: seq<Action>)
    requires NoRepeats(a) && NoRepeats(b)
    requires forall x :: x in a ==> x !in b
    ensures NoRepeats(a + b)
  {
    forall i, j | 0 <= i < j < |a + b| ensures (a + b)[i] != (a + b)[j] {
      if i < |a| && j >= |a| {
        assert (a + b)[i] in a && (a + b)[j] in b;
      }
    }
  }

  /** Plans without repeats, no two of which share an action, make a plan
      without repeats when run one after another. */
  lemma {:induction false} FlatMapNoRepeats<T>(s: seq<T>, f: T -> seq<Action>)
    requires forall i :: 0 <= i < |s| ==> NoRepeats(f(s[i]))
    requires forall i, j, x :: 0 <= i < j < |s| && x in f(s[i]) ==> x !in f(s[j])
    ensures NoRepeats(FlatMap(s, f))
  {
    if |s| > 0 {
      FlatMapNoRepeats(s[1..], f);
      forall x | x in f(s[0]) ensures x !in FlatMap(s[1..], f) {
        FlatMapMember(s[1..], f, x);
      }
      NoRepeatsConcat(f(s[0]), FlatMap(s[1..], f));
    } else {
      assert FlatMap(s, f) == [];
    }
  }
}
