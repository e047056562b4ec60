/**
 NFSv4 ACL inheritance of the `winacl` tool. A table of two levels (`MAX_ACL_DEPTH`) is filled
 once from the source ACL and serves every depth of the directory walk. The model keeps the C
 loop, with entries inserted at a running offset, and shows that two levels are enough.
 */
module WinAcl {
  import opened Sequences

  // An access control entry; `audit` stands for the flags inheritance never looks at.
  datatype Entry = Entry(
    principal: string, permissions: set<string>, allow: bool, audit: set<string>,
    fileInherit: bool, dirInherit: bool, noPropagate: bool, inheritOnly: bool, inherited: bool)

  type Acl = seq<Entry>

  datatype InheritedAcls = InheritedAcls(dacl: Acl, facl: Acl)

  const MAX_ACL_DEPTH := 2

  // --- Which entries are passed on, and how they look on the child ------------------------------

  predicate Survives(e: Entry) {
    (e.dirInherit || e.fileInherit) && !(e.noPropagate && !e.inheritOnly)
  }

  function Marked(e: Entry): Entry {
    e.(inheritOnly := false, inherited := true)
  }

  function ClearInherit(e: Entry): Entry {
    e.(fileInherit := false, dirInherit := false, noPropagate := false)
  }

  // Passed on to directories under the running offset.
  predicate Directory(e: Entry) {
    Survives(e) && (e.dirInherit || !e.noPropagate)
  }

  // File-only and not propagated: abandoned after its slot in the directory ACL was created.
  predicate Stray(e: Entry) {
    Survives(e) && e.noPropagate && !e.dirInherit
  }

  function OnDirectory(e: Entry): Entry {
    if e.noPropagate then ClearInherit(Marked(e))
    else if !e.dirInherit then Marked(e).(inheritOnly := true)
    else Marked(e)
  }

  function Directories(acl: Acl): Acl {
    if acl == [] then []
    else Directories(acl[..|acl| - 1]) + (if Directory(acl[|acl| - 1]) then [OnDirectory(acl[|acl| - 1])] else [])
  }

  // Each stray entry is pushed right by whatever is inserted later, so the last one comes first.
  function Strays(acl: Acl): Acl {
    if acl == [] then []
    else (if Stray(acl[|acl| - 1]) then [Marked(acl[|acl| - 1])] else []) + Strays(acl[..|acl| - 1])
  }

  function Files(acl: Acl): Acl {
    if acl == [] then []
    else
      var last := acl[|acl| - 1];
      Files(acl[..|acl| - 1]) + (if Survives(last) && last.fileInherit then [ClearInherit(Marked(last))] else [])
  }

  /** One application of inheritance, and whether the tool accepts its result. */
  function Inherit(trivial: Acl -> bool, parent: Acl): InheritedAcls {
    if trivial(parent) then InheritedAcls(parent, parent)
    else InheritedAcls(Directories(parent) + Strays(parent), Files(parent))
  }

  predicate Accepted(trivial: Acl -> bool, parent: Acl) {
    trivial(parent) || (Directories(parent) != [] && Files(parent) != [])
  }

  /** Inheritance iterated: the ACLs `n` levels below an object that carries `source`. */
  ghost function InheritTimes(trivial: Acl -> bool, source: Acl, n: nat): InheritedAcls
    requires n >= 1
  {
    if n == 1 then Inherit(trivial, source)
    else Inherit(trivial, InheritTimes(trivial, source, n - 1).dacl)
  }

  /** All that is asked of `acl_is_trivial_np`: an ACL expressed by a file mode inherits nothing. */
  ghost predicate TrivialInheritsNothing(trivial: Acl -> bool) {
    forall acl: Acl :: trivial(acl) ==> forall e :: e in acl ==> !e.fileInherit && !e.dirInherit
  }

  // --- Depth cap -----------------------------------------------------------------------------------

  // Entries that inheritance reproduces unchanged on directories.
  predicate Stable(e: Entry) {
    && e.inherited && !e.noPropagate
    && (e.dirInherit || e.fileInherit) && (e.inheritOnly <==> !e.dirInherit)
  }

  predicate Dead(e: Entry) {
    !Survives(e)
  }

  lemma {:induction false} DirectoryEntryStableOrDead(e: Entry)
    ensures Directory(e) ==> Stable(OnDirectory(e)) || Dead(OnDirectory(e))
    ensures Stray(e) ==> Dead(Marked(e))
    ensures Stable(e) ==> Directory(e) && !Stray(e) && OnDirectory(e) == e
    ensures Dead(e) ==> !Directory(e) && !Stray(e)
  {
  }

  ghost predicate StableOrDead(acl: Acl) {
    forall e :: e in acl ==> Stable(e) || Dead(e)
  }

  lemma {:induction false} ChildEntries(acl: Acl)
    ensures StableOrDead(Directories(acl) + Strays(acl))
  {
    if acl != [] {
      ChildEntries(acl[..|acl| - 1]);
      DirectoryEntryStableOrDead(acl[|acl| - 1]);
      forall e | e in Directories(acl) + Strays(acl) ensures Stable(e) || Dead(e) {
        var init := acl[..|acl| - 1];
        assert e in Directories(init) + Strays(init) || e == OnDirectory(acl[|acl| - 1]) || e == Marked(acl[|acl| - 1]);
      }
    }
  }

  // On such an ACL inheritance only filters, and what it keeps it keeps for ever.
  lemma {:induction false} FilterOnce(acl: Acl)
    requires StableOrDead(acl)
    ensures Strays(acl) == [] && Strays(Directories(acl)) == []
    ensures Directories(Directories(acl)) == Directories(acl)
    ensures Files(Directories(acl)) == Files(acl)
    ensures forall e :: e in Directories(acl) ==> Stable(e)
  {
    if acl != [] {
      var init, last := acl[..|acl| - 1], acl[|acl| - 1];
      assert StableOrDead(init) by {
        assert forall e :: e in init ==> e in acl;
      }
      FilterOnce(init);
      assert last in acl;
      DirectoryEntryStableOrDead(last);
      var kept := Directories(acl);
      if Directory(last) {
        assert Stable(last);
        assert kept == Directories(init) + [last];
        assert kept[..|kept| - 1] == Directories(init) && kept[|kept| - 1] == last;
      } else {
        assert kept == Directories(init);
      }
    }
  }

  // Two accepted applications reach a fixed point for directories and for files.
  lemma {:induction false} ThirdApplication(trivial: Acl -> bool, source: Acl)
    requires TrivialInheritsNothing(trivial)
    requires Accepted(trivial, source) && Accepted(trivial, Inherit(trivial, source).dacl)
    ensures InheritTimes(trivial, source, 3) == InheritTimes(trivial, source, 2)
  {
    var one := Inherit(trivial, source).dacl;
    var two := Inherit(trivial, one).dacl;
    assert InheritTimes(trivial, source, 1).dacl == one;
    assert InheritTimes(trivial, source, 2) == Inherit(trivial, one);
    assert InheritTimes(trivial, source, 3) == Inherit(trivial, two);
    if trivial(one) {
    } else {
      assert !trivial(source);
      ChildEntries(source);
      FilterOnce(one);
      assert two == Directories(one);
      assert two[0] in two;
      assert !trivial(two);
    }
  }

  /** The depth cap is exact: every level from the second on carries the ACLs of the second. */
  lemma {:induction false} DepthCap(trivial: Acl -> bool, source: Acl, n: nat)
    requires TrivialInheritsNothing(trivial) && n >= MAX_ACL_DEPTH
    requires Accepted(trivial, source) && Accepted(trivial, Inherit(trivial, source).dacl)
    ensures InheritTimes(trivial, source, n) == InheritTimes(trivial, source, MAX_ACL_DEPTH)
  {
    if n > MAX_ACL_DEPTH {
      DepthCap(trivial, source, n - 1);
      ThirdApplication(trivial, source);
      assert InheritTimes(trivial, source, n) == Inherit(trivial, InheritTimes(trivial, source, n - 1).dacl);
      assert InheritTimes(trivial, source, 3) == Inherit(trivial, InheritTimes(trivial, source, 2).dacl);
    }
  }

  // --- When the setup succeeds ------------------------------------------------------------------------

  lemma {:induction false} DirectoriesExist(acl: Acl)
    ensures Directories(acl) != [] <==> exists e :: e in acl && Directory(e)
  {
    if acl != [] {
      DirectoriesExist(acl[..|acl| - 1]);
      InFront(acl);
    }
  }

  lemma {:induction false} FilesExist(acl: Acl)
    ensures Files(acl) != [] <==> exists e :: e in acl && Survives(e) && e.fileInherit
  {
    if acl != [] {
      FilesExist(acl[..|acl| - 1]);
      InFront(acl);
    }
  }

  lemma {:induction false} InDirectories(acl: Acl, x: Entry)
    ensures x in Directories(acl) <==> exists e :: e in acl && Directory(e) && x == OnDirectory(e)
  {
    if acl != [] {
      InDirectories(acl[..|acl| - 1], x);
      InFront(acl);
    }
  }

  lemma {:induction false} InStrays(acl: Acl, x: Entry)
    ensures x in Strays(acl) <==> exists e :: e in acl && Stray(e) && x == Marked(e)
  {
    if acl != [] {
      InStrays(acl[..|acl| - 1], x);
      InFront(acl);
    }
  }

  lemma {:induction false} InFront(acl: Acl)
    requires acl != []
    ensures forall e :: e in acl <==> e in acl[..|acl| - 1] || e == acl[|acl| - 1]
  {
    assert acl == acl[..|acl| - 1] + [acl[|acl| - 1]];
  }

  lemma {:induction false} Membership(acl: Acl)
    ensures Directories(acl) != [] <==> exists e :: e in acl && Directory(e)
    ensures Files(acl) != [] <==> exists e :: e in acl && Survives(e) && e.fileInherit
    ensures forall x :: x in Directories(acl) <==> exists e :: e in acl && Directory(e) && x == OnDirectory(e)
    ensures forall x :: x in Strays(acl) <==> exists e :: e in acl && Stray(e) && x == Marked(e)
  {
    DirectoriesExist(acl);
    FilesExist(acl);
    forall x ensures x in Directories(acl) <==> exists e :: e in acl && Directory(e) && x == OnDirectory(e) {
      InDirectories(acl, x);
    }
    forall x ensures x in Strays(acl) <==> exists e :: e in acl && Stray(e) && x == Marked(e) {
      InStrays(acl, x);
    }
  }

  /** The two calls made for a clone succeed exactly when the source ACL is trivial, or has an
      entry for files and an entry for directories, and hands an entry on to files twice (unless
      the ACL of the first level is itself trivial). */
  lemma {:induction false} SetupSucceeds(trivial: Acl -> bool, source: Acl)
    ensures (Accepted(trivial, source) && Accepted(trivial, Inherit(trivial, source).dacl)) <==>
            (|| trivial(source)
             || (&& (exists e :: e in source && Survives(e) && e.fileInherit)
                 && (exists e :: e in source && Directory(e))
                 && (|| trivial(Directories(source) + Strays(source))
                     || exists e :: e in source && Survives(e) && e.fileInherit && !e.noPropagate)))
  {
    if !trivial(source) {
      Membership(source);
      var one := Directories(source) + Strays(source);
      ChildEntries(source);
      Membership(one);
      if Files(one) != [] {
        var x :| x in one && Survives(x) && x.fileInherit;
        assert x in Directories(source) || x in Strays(source);
        assert exists e :: e in source && Survives(e) && e.fileInherit && !e.noPropagate;
      }
      if e :| e in source && Survives(e) && e.fileInherit && !e.noPropagate {
        assert Directory(e) && OnDirectory(e) in Directories(source);
        assert OnDirectory(e) in one && Directory(OnDirectory(e)) && Survives(OnDirectory(e));
      }
    }
  }

  // --- The abandoned entries -----------------------------------------------------------------------------

  // Applies to the directory itself although it was meant for files only.
  predicate FileOnlyOnDirectory(e: Entry) {
    e.fileInherit && e.noPropagate && !e.dirInherit && !e.inheritOnly && e.inherited
  }

  /** A file-only, non-propagating entry does stay in the directory ACL, exactly when the parent
      has one that survives. */
  lemma {:induction false} StrayEntries(acl: Acl)
    ensures (exists x :: x in Directories(acl) + Strays(acl) && FileOnlyOnDirectory(x)) <==>
            exists e :: e in acl && Stray(e)
  {
    Membership(acl);
    var one := Directories(acl) + Strays(acl);
    if e :| e in acl && Stray(e) {
      assert Marked(e) in Strays(acl) && FileOnlyOnDirectory(Marked(e));
      assert Marked(e) in one;
    }
    if x :| x in one && FileOnlyOnDirectory(x) {
      assert x in Directories(acl) || x in Strays(acl);
    }
  }

  /** One level further down no such entry is left. */
  lemma {:induction false} StrayEntriesGone(acl: Acl)
    ensures var one := Directories(acl) + Strays(acl);
            forall x :: x in Directories(one) + Strays(one) ==> !FileOnlyOnDirectory(x)
  {
    ChildEntries(acl);
    FilterOnce(Directories(acl) + Strays(acl));
  }

  // The entry `fin` (files, inherit only, no propagate) next to an ordinary entry `fd`.
  lemma {:induction false} StrayExample(principal: string)
    ensures var fin := Entry(principal, {}, true, {}, true, false, true, true, false);
            var fd := Entry(principal, {}, true, {}, true, true, false, false, false);
            Directories([fin, fd]) + Strays([fin, fd]) == [Marked(fd), Marked(fin)]
  {
    var fin := Entry(principal, {}, true, {}, true, false, true, true, false);
    var fd := Entry(principal, {}, true, {}, true, true, false, false, false);
    assert [fin, fd][..1] == [fin] && [fin][..0] == [];
    assert Directories([fin]) == [] && Strays([fin]) == [Marked(fin)];
  }

  lemma {:induction false} Sizes(acl: Acl)
    ensures |Directories(acl)| + |Strays(acl)| <= |acl| && |Files(acl)| <= |acl|
  {
    if acl != [] {
      Sizes(acl[..|acl| - 1]);
    }
  }

  // --- The inherited entries, flag by flag ---------------------------------------------------------------

  // The entries with the property, in order.
  function Select(acl: Acl, p: Entry -> bool): Acl {
    if acl == [] then [] else (if p(acl[0]) then [acl[0]] else []) + Select(acl[1..], p)
  }

  lemma {:induction false} SelectLast(acl: Acl, p: Entry -> bool)
    requires acl != []
    ensures var init, last := acl[..|acl| - 1], acl[|acl| - 1];
            Select(acl, p) == Select(init, p) + (if p(last) then [last] else [])
  {
    var init, last := acl[..|acl| - 1], acl[|acl| - 1];
    if |acl| > 1 {
      var first := if p(acl[0]) then [acl[0]] else [];
      assert acl[1..][..|acl| - 2] == init[1..] && acl[1..][|acl| - 2] == last;
      SelectLast(acl[1..], p);
      ConcatConcat(first, Select(init[1..], p), if p(last) then [last] else []);
    }
  }

  // Handed on to files: meant for them, and not stopped.
  predicate ForFiles(e: Entry) {
    e.fileInherit && (!e.noPropagate || e.inheritOnly)
  }

  // Handed on to directories: meant for them and not stopped, or to be handed on to files further down.
  predicate ForDirectories(e: Entry) {
    (e.dirInherit && (!e.noPropagate || e.inheritOnly)) || (e.fileInherit && !e.noPropagate)
  }

  // Meant for the files of one level only.
  predicate ForFilesOnce(e: Entry) {
    e.fileInherit && !e.dirInherit && e.noPropagate && e.inheritOnly
  }

  // The child grants or denies the same to the same, and is marked as inherited.
  predicate SameGrant(parent: Entry, child: Entry) {
    && child.principal == parent.principal && child.permissions == parent.permissions
    && child.allow == parent.allow && child.audit == parent.audit && child.inherited
  }

  predicate NoInheritFlags(e: Entry) {
    !e.fileInherit && !e.dirInherit && !e.noPropagate && !e.inheritOnly
  }

  predicate FileEntry(parent: Entry, child: Entry) {
    SameGrant(parent, child) && NoInheritFlags(child)
  }

  // It ends here; or it is only on its way to files; or it applies here and goes on as it is.
  predicate DirectoryEntry(parent: Entry, child: Entry) {
    && SameGrant(parent, child)
    && (parent.noPropagate ==> NoInheritFlags(child))
    && (!parent.noPropagate ==>
          && child.fileInherit == parent.fileInherit && child.dirInherit == parent.dirInherit && !child.noPropagate
          && (child.inheritOnly <==> !parent.dirInherit))
  }

  predicate StrayEntry(parent: Entry, child: Entry) {
    SameGrant(parent, child) && child.fileInherit && !child.dirInherit && child.noPropagate && !child.inheritOnly
  }

  // Each child comes from the parent at its place.
  ghost predicate Pairwise(parents: Acl, children: Acl, comes: (Entry, Entry) -> bool) {
    |children| == |parents| && forall k :: 0 <= k < |parents| ==> comes(parents[k], children[k])
  }

  lemma {:induction false} PairwiseMore(parents: Acl, children: Acl, comes: (Entry, Entry) -> bool, p: Entry, c: Entry)
    requires Pairwise(parents, children, comes) && comes(p, c)
    ensures Pairwise(parents + [p], children + [c], comes)
  {
  }

  lemma {:induction false} FileEntries(acl: Acl)
    ensures Pairwise(Select(acl, ForFiles), Files(acl), FileEntry)
  {
    if acl != [] {
      var init, last := acl[..|acl| - 1], acl[|acl| - 1];
      FileEntries(init);
      SelectLast(acl, ForFiles);
      if ForFiles(last) {
        PairwiseMore(Select(init, ForFiles), Files(init), FileEntry, last, ClearInherit(Marked(last)));
      }
    }
  }

  lemma {:induction false} DirectoryEntries(acl: Acl)
    ensures Pairwise(Select(acl, ForDirectories), Directories(acl), DirectoryEntry)
  {
    if acl != [] {
      var init, last := acl[..|acl| - 1], acl[|acl| - 1];
      DirectoryEntries(init);
      SelectLast(acl, ForDirectories);
      assert ForDirectories(last) <==> Directory(last);
      if Directory(last) {
        PairwiseMore(Select(init, ForDirectories), Directories(init), DirectoryEntry, last, OnDirectory(last));
      }
    }
  }

  // The strays come in the opposite order.
  ghost predicate Reversed(once: Acl, strays: Acl) {
    |strays| == |once| && forall k :: 0 <= k < |once| ==> StrayEntry(once[|once| - 1 - k], strays[k])
  }

  lemma {:induction false} StrayInFront(once: Acl, strays: Acl, p: Entry, c: Entry)
    requires Reversed(once, strays) && StrayEntry(p, c)
    ensures Reversed(once + [p], [c] + strays)
  {
    var once', strays' := once + [p], [c] + strays;
    forall k | 0 <= k < |once'| ensures StrayEntry(once'[|once'| - 1 - k], strays'[k]) {
      if k > 0 {
        assert once'[|once'| - 1 - k] == once[|once| - 1 - (k - 1)] && strays'[k] == strays[k - 1];
      }
    }
  }

  lemma {:induction false} StrayOrder(acl: Acl)
    ensures Reversed(Select(acl, ForFilesOnce), Strays(acl))
  {
    if acl != [] {
      var last := acl[|acl| - 1];
      StrayOrder(acl[..|acl| - 1]);
      SelectLast(acl, ForFilesOnce);
      var once, strays := Select(acl[..|acl| - 1], ForFilesOnce), Strays(acl[..|acl| - 1]);
      if Stray(last) {
        StrayInFront(once, strays, last, Marked(last));
        assert Select(acl, ForFilesOnce) == once + [last] && Strays(acl) == [Marked(last)] + strays;
      } else {
        assert Select(acl, ForFilesOnce) == once && Strays(acl) == strays;
      }
    }
  }

  /** What an object hands on, entry by entry: a trivial ACL as it is; otherwise the k-th entry of either
      list comes from the k-th entry of the parent that is meant for it, and grants the same; behind those
      of a directory come, in the opposite order, the ones that were meant for files only. */
  lemma {:induction false} InheritedEntries(trivial: Acl -> bool, parent: Acl)
    ensures var child, n := Inherit(trivial, parent), |Select(parent, ForDirectories)|;
            && (trivial(parent) ==> child.dacl == parent && child.facl == parent)
            && (!trivial(parent) ==>
                  && Pairwise(Select(parent, ForFiles), child.facl, FileEntry)
                  && n <= |child.dacl| && Pairwise(Select(parent, ForDirectories), child.dacl[..n], DirectoryEntry)
                  && Reversed(Select(parent, ForFilesOnce), child.dacl[n..]))
  {
    FileEntries(parent);
    DirectoryEntries(parent);
    StrayOrder(parent);
    assert (Directories(parent) + Strays(parent))[..|Directories(parent)|] == Directories(parent);
    assert (Directories(parent) + Strays(parent))[|Directories(parent)|..] == Strays(parent);
  }

  // --- The tool ---------------------------------------------------------------------------------------------

  function InsertAt(acl: Acl, offset: nat, e: Entry): Acl
    requires offset <= |acl|
  {
    acl[..offset] + [e] + acl[offset..]
  }

  // An insertion at the running offset goes between the directory entries and the strays.
  lemma {:induction false} InsertBetween(d: Acl, s: Acl, e: Entry, e': Entry)
    ensures InsertAt(d + s, |d|, e) == d + ([e] + s)
    ensures InsertAt(d + s, |d|, e)[|d| := e'] == (d + [e']) + s
  {
  }

  // What one more entry adds to the three lists.
  lemma {:induction false} OneMore(acl: Acl, i: nat)
    requires i < |acl|
    ensures Directories(acl[..i + 1]) ==
            Directories(acl[..i]) + (if Directory(acl[i]) then [OnDirectory(acl[i])] else [])
    ensures Strays(acl[..i + 1]) == (if Stray(acl[i]) then [Marked(acl[i])] else []) + Strays(acl[..i])
    ensures Files(acl[..i + 1]) ==
            Files(acl[..i]) + (if Survives(acl[i]) && acl[i].fileInherit then [ClearInherit(Marked(acl[i]))] else [])
  {
    assert acl[..i + 1][..i] == acl[..i];
  }

  class WindowsAclInfo {
    const trivial: Acl -> bool
    var sourceAcl: Acl
    var acls: array<InheritedAcls>

    constructor (trivial: Acl -> bool)
      ensures this.trivial == trivial && acls.Length == MAX_ACL_DEPTH && fresh(acls)
    {
      this.trivial := trivial;
      sourceAcl := [];
      acls := new InheritedAcls[MAX_ACL_DEPTH](_ => InheritedAcls([], []));
    }

    /* One entry of the parent: inserted into either list at its running offset, which in the file
       list is always the end. */
    static method PassOn(e: Entry, ghost d: Acl, ghost s: Acl, dacl0: Acl, dEntryId0: nat, facl0: Acl,
                         mustSetDacl0: bool, mustSetFacl0: bool)
      returns (dacl: Acl, dEntryId: nat, facl: Acl, mustSetDacl: bool, mustSetFacl: bool)
      requires dacl0 == d + s && dEntryId0 == |d| && mustSetDacl0 && mustSetFacl0
      ensures mustSetDacl && mustSetFacl
      ensures dEntryId == |d| + (if Directory(e) then 1 else 0)
      ensures dacl ==
              (d + (if Directory(e) then [OnDirectory(e)] else [])) + ((if Stray(e) then [Marked(e)] else []) + s)
      ensures facl == facl0 + (if Survives(e) && e.fileInherit then [ClearInherit(Marked(e))] else [])
    {
      dacl, dEntryId, facl, mustSetDacl, mustSetFacl := dacl0, dEntryId0, facl0, mustSetDacl0, mustSetFacl0;
      if !e.dirInherit && !e.fileInherit {
        return;
      }
      if e.noPropagate && !e.inheritOnly {
        return;
      }
      var entry := e.(inheritOnly := false, inherited := true);
      InsertBetween(d, s, entry, OnDirectory(e));
      if !entry.fileInherit {
        mustSetFacl := false;
      }
      if mustSetFacl {
        var fEntryId := |facl|;
        facl := InsertAt(facl, fEntryId, entry);
        facl := facl[fEntryId := ClearInherit(entry)];
      }
      if mustSetDacl {
        dacl := InsertAt(dacl, dEntryId, entry);
        if entry.noPropagate {
          if !entry.dirInherit {
            // the slot just created is abandoned, not removed
            return;
          }
          dacl := dacl[dEntryId := ClearInherit(entry)];
        } else if !entry.dirInherit {
          dacl := dacl[dEntryId := entry.(inheritOnly := true)];
        }
        dEntryId := dEntryId + 1;
      }
      mustSetDacl, mustSetFacl := true, true;
    }

    /** Fills one level of the table from the ACL of its parent. */
    method CalculateInheritedAcl(parentAcl: Acl, level: nat) returns (ret: int)
      requires level < acls.Length
      modifies acls
      ensures acls[level] == Inherit(trivial, parentAcl)
      ensures forall i :: 0 <= i < acls.Length && i != level ==> acls[i] == old(acls[i])
      ensures ret == if Accepted(trivial, parentAcl) then 0 else -1
      // no list outgrows the parent, so the insertions never exceed the capacity of an ACL
      ensures |acls[level].dacl| <= |parentAcl| && |acls[level].facl| <= |parentAcl|
    {
      Sizes(parentAcl);
      ret := 0;
      if trivial(parentAcl) {
        acls[level] := InheritedAcls(parentAcl, parentAcl);
        return;
      }
      var dacl: Acl, facl: Acl := [], [];
      var dEntryId := 0;
      var mustSetFacl, mustSetDacl := true, true;
      for i := 0 to |parentAcl|
        invariant mustSetFacl && mustSetDacl
        invariant dEntryId == |Directories(parentAcl[..i])|
        invariant dacl == Directories(parentAcl[..i]) + Strays(parentAcl[..i])
        invariant facl == Files(parentAcl[..i])
        invariant forall k :: 0 <= k < acls.Length ==> acls[k] == old(acls[k])
      {
        OneMore(parentAcl, i);
        ghost var d, s := Directories(parentAcl[..i]), Strays(parentAcl[..i]);
        dacl, dEntryId, facl, mustSetDacl, mustSetFacl :=
          PassOn(parentAcl[i], d, s, dacl, dEntryId, facl, mustSetDacl, mustSetFacl);
      }
      assert parentAcl[..|parentAcl|] == parentAcl;
      acls[level] := InheritedAcls(dacl, facl);
      if dEntryId == 0 || |facl| == 0 {
        ret := -1;
      }
    }

    /** The clone setup: level 0 from the source, level 1 from the directory ACL of level 0. */
    method SetupClone(source: Acl) returns (ret: int)
      requires acls.Length == MAX_ACL_DEPTH
      modifies this, acls
      ensures acls == old(acls) && sourceAcl == source
      ensures ret == 0 <==> Accepted(trivial, source) && Accepted(trivial, Inherit(trivial, source).dacl)
      ensures ret == 0 ==> acls[0] == InheritTimes(trivial, source, 1) && acls[1] == InheritTimes(trivial, source, 2)
    {
      sourceAcl := source;
      var first := CalculateInheritedAcl(sourceAcl, 0);
      if first != 0 {
        return 1;
      }
      var second := CalculateInheritedAcl(acls[0].dacl, 1);
      if second != 0 {
        return 1;
      }
      ret := 0;
    }

    /** The ACL written to an object `ftsLevel` levels below the root of the walk. */
    method ChooseAcl(ftsLevel: nat, isDir: bool) returns (acl: Acl)
      requires acls.Length == MAX_ACL_DEPTH && TrivialInheritsNothing(trivial)
      requires Accepted(trivial, sourceAcl) && Accepted(trivial, Inherit(trivial, sourceAcl).dacl)
      requires acls[0] == InheritTimes(trivial, sourceAcl, 1) && acls[1] == InheritTimes(trivial, sourceAcl, 2)
      ensures ftsLevel == 0 ==> acl == sourceAcl
      ensures ftsLevel >= 1 ==>
                var wanted := InheritTimes(trivial, sourceAcl, ftsLevel);
                acl == if isDir then wanted.dacl else wanted.facl
    {
      if ftsLevel == 0 {
        acl := sourceAcl;
      } else {
        var aclDepth := if ftsLevel - 1 >= MAX_ACL_DEPTH then MAX_ACL_DEPTH - 1 else ftsLevel - 1;
        if ftsLevel >= MAX_ACL_DEPTH {
          DepthCap(trivial, sourceAcl, ftsLevel);
        }
        acl := if isDir then acls[aclDepth].dacl else acls[aclDepth].facl;
      }
    }
  }
}
