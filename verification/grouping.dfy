/** `groupImages`: `Collectors.groupingBy` over the scanned files, keyed by the
    first match of the group pattern in the file name, or "ungrouped". */
module Grouping {
  import opened Wrappers
  import opened Files
  import opened Patterns

  const Ungrouped: string := "ungrouped"

  /** The classifier passed to `groupingBy`: `matcher.find() ? matcher.group() : "ungrouped"`. */
  function GroupKey(group: Pattern, name: string): string
  {
    match group.find(name)
    case Some(m) => m
    case None => Ungrouped
  }

  /** The selector for the files that the classifier sends to `key`. */
  function HasKey(group: Pattern, key: string): File -> bool
  {
    (f: File) => GroupKey(group, f.name) == key
  }

  /** Every key the classifier produces for `files`. */
  function KeysOf(files: seq<File>, group: Pattern): set<string>
  {
    set f | f in files :: GroupKey(group, f.name)
  }

  /** `groupImages(files, groupRegex)`: the collector visits the files in order
      and appends each one to the list of its key, creating the list on first use.
      The result has one key per distinct classifier value, and each list is the
      subsequence of the input with that key. */
  function GroupImages(files: seq<File>, group: Pattern): (m: map<string, seq<File>>)
    ensures m.Keys == KeysOf(files, group)
    ensures forall k :: k in m ==> m[k] == Filter(files, HasKey(group, k))
    decreases |files|
  {
    if |files| == 0 then map[]
    else
      var init, f := files[..|files| - 1], files[|files| - 1];
      var m0 := GroupImages(init, group);
      assert init + [f] == files;
      GroupStep(files, init, f, group, m0);
      Collect(m0, GroupKey(group, f.name), f)
  }

  /** The collector's accumulation step: append `f` to the list of `key`,
      creating the list on first use. */
  function Collect(m0: map<string, seq<File>>, key: string, f: File): map<string, seq<File>>
  {
    m0[key := (if key in m0 then m0[key] else []) + [f]]
  }

  /** One step of the collector keeps the grouping's characterisation. */
  lemma GroupStep(files: seq<File>, init: seq<File>, f: File, group: Pattern, m0: map<string, seq<File>>)
    requires files == init + [f]
    requires m0.Keys == KeysOf(init, group)
    requires forall k :: k in m0 ==> m0[k] == Filter(init, HasKey(group, k))
    ensures var m := Collect(m0, GroupKey(group, f.name), f);
            && m.Keys == KeysOf(files, group)
            && forall key :: key in m ==> m[key] == Filter(files, HasKey(group, key))
  {
    KeysOfSnoc(init, f, group);
    forall key | key in Collect(m0, GroupKey(group, f.name), f)
      ensures Collect(m0, GroupKey(group, f.name), f)[key] == Filter(files, HasKey(group, key))
    {
      CollectList(init, f, group, m0, key);
    }
  }

  /** The list of one key after a step of the collector. */
  lemma CollectList(init: seq<File>, f: File, group: Pattern, m0: map<string, seq<File>>, key: string)
    requires m0.Keys == KeysOf(init, group)
    requires key in m0 ==> m0[key] == Filter(init, HasKey(group, key))
    ensures var m := Collect(m0, GroupKey(group, f.name), f);
            key in m ==> m[key] == Filter(init + [f], HasKey(group, key))
  {
    var k := GroupKey(group, f.name);
    FilterSnoc(init, f, HasKey(group, key));
    if key == k && k !in m0 {
      FilterAbsentKey(init, group, k);
    }
  }

  lemma KeysOfSnoc(init: seq<File>, f: File, group: Pattern)
    ensures KeysOf(init + [f], group) == KeysOf(init, group) + {GroupKey(group, f.name)}
  {
    var files := init + [f];
    forall key | key in KeysOf(files, group) ensures key in KeysOf(init, group) + {GroupKey(group, f.name)} {
      var g :| g in files && GroupKey(group, g.name) == key;
      if g != f {
        assert g in init;
      }
    }
    assert f in files;
    forall key | key in KeysOf(init, group) ensures key in KeysOf(files, group) {
      var g :| g in init && GroupKey(group, g.name) == key;
      assert g in files;
    }
  }

  lemma FilterAbsentKey(files: seq<File>, group: Pattern, key: string)
    requires key !in KeysOf(files, group)
    ensures Filter(files, HasKey(group, key)) == []
  {
    forall i | 0 <= i < |files| ensures !HasKey(group, key)(files[i]) {
      assert files[i] in files;
    }
    FilterNone(files, HasKey(group, key));
  }

  /** Every group is non-empty: a key exists only because some file produced it. */
  lemma GroupsNonEmpty(files: seq<File>, group: Pattern, key: string)
    requires key in GroupImages(files, group)
    ensures |GroupImages(files, group)[key]| > 0
  {
    var g :| g in files && GroupKey(group, g.name) == key;
    FilterMembership(files, HasKey(group, key), g);
  }

  /** Every input file is in the group of its own key, and in no other group. */
  lemma GroupMembership(files: seq<File>, group: Pattern, f: File, key: string)
    requires key in GroupImages(files, group)
    ensures f in GroupImages(files, group)[key] <==> f in files && GroupKey(group, f.name) == key
  {
    FilterMembership(files, HasKey(group, key), f);
  }

  /** A key is either the match the group pattern found in each of its files'
      names, or "ungrouped" for files where it found nothing. */
  lemma GroupKeyMeaning(files: seq<File>, group: Pattern, key: string, f: File)
    requires key in GroupImages(files, group)
    requires f in GroupImages(files, group)[key]
    ensures group.find(f.name) == Some(key) || (key == Ungrouped && group.find(f.name) == None)
  {
    FilterMembership(files, HasKey(group, key), f);
  }

  /** With an engine whose matches are pieces of the input, every key other
      than "ungrouped" occurs in the name of each file of its group. */
  lemma GroupKeyOccurs(files: seq<File>, group: Pattern, key: string, f: File)
    requires FindsSubstrings(group)
    requires key in GroupImages(files, group) && key != Ungrouped
    requires f in GroupImages(files, group)[key]
    ensures Occurs(key, f.name)
  {
    GroupKeyMeaning(files, group, key, f);
  }

  /** The "ungrouped" bucket is shared: a file whose match is literally
      "ungrouped" lands in it together with the files that have no match. */
  lemma UngroupedCollision(a: File, b: File, group: Pattern)
    requires group.find(a.name) == Some(Ungrouped) && group.find(b.name) == None
    ensures Ungrouped in GroupImages([a, b], group)
    ensures GroupImages([a, b], group)[Ungrouped] == [a, b]
  {
    var m := GroupImages([a, b], group);
    assert a in [a, b];
    assert Ungrouped in m;
    assert Filter([a, b], HasKey(group, Ungrouped)) == [a, b] by {
      assert [a, b][1..] == [b];
      assert [b][1..] == [];
    }
  }

  // ---------------------------------------------------------------------
  // Group sizes add up to the number of files.

  /** The number of files over all groups of a grouping. */
  ghost function TotalSize(m: map<string, seq<File>>): nat
    decreases |m|
  {
    if |m| == 0 then 0
    else
      var k := SomeKey(m);
      |m[k]| + TotalSize(m - {k})
  }

  ghost function SomeKey(m: map<string, seq<File>>): (k: string)
    requires |m| > 0
    ensures k in m
  {
    var k :| k in m; k
  }

  /** The total may be computed starting from any key. */
  lemma {:induction false} TotalSizePick(m: map<string, seq<File>>, k: string)
    requires k in m
    ensures TotalSize(m) == |m[k]| + TotalSize(m - {k})
    decreases |m|
  {
    var j := SomeKey(m);
    if j != k {
      var mj := m - {j};
      var mk := m - {k};
      assert |mj| < |m| && |mk| < |m|;
      assert k in mj && mj[k] == m[k];
      assert j in mk && mk[j] == m[j];
      TotalSizePick(mj, k);
      TotalSizePick(mk, j);
      assert mj - {k} == mk - {j};
    }
  }

  /** Replacing the list of one key changes the total by the change in that list. */
  lemma TotalSizeUpdate(m: map<string, seq<File>>, k: string, v: seq<File>)
    ensures TotalSize(m[k := v]) == TotalSize(m) - (if k in m then |m[k]| else 0) + |v|
  {
    var m' := m[k := v];
    TotalSizePick(m', k);
    assert m' - {k} == m - {k};
    if k in m {
      TotalSizePick(m, k);
    } else {
      assert m - {k} == m;
    }
  }

  /** Grouping is a partition: the group sizes add up to the number of input files. */
  lemma {:induction false} GroupSizesSum(files: seq<File>, group: Pattern)
    ensures TotalSize(GroupImages(files, group)) == |files|
    decreases |files|
  {
    if |files| > 0 {
      var init := files[..|files| - 1];
      var f := files[|files| - 1];
      var m0 := GroupImages(init, group);
      var k := GroupKey(group, f.name);
      GroupSizesSum(init, group);
      TotalSizeUpdate(m0, k, (if k in m0 then m0[k] else []) + [f]);
    }
  }
}
