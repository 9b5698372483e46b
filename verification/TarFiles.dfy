// The files that unpacking an archive reports, entry by entry.
module TarFiles {
  import opened Bytes
  import opened TarReader
  import opened TarArchives

  // A name of an archive's: the name, behind the prefix and a slash if there is a prefix.
  predicate NameOf(e: Entry, name: seq<byte>) {
    if e.prefix == [] then name == e.name
    else
      && |name| == |e.prefix| + 1 + |e.name|
      && name[..|e.prefix|] == e.prefix && name[|e.prefix|] == '/' as int && name[|e.prefix| + 1..] == e.name
  }

  lemma NameIs(e: Entry)
    ensures NameOf(e, FullName(e.prefix, e.name))
  {
  }

  lemma {:induction false} FilesJoin(es: seq<Entry>, more: seq<Entry>)
    ensures Files(es + more) == Files(es) + Files(more)
  {
    if es == [] {
      assert es + more == more && [] + Files(more) == Files(more);
    } else {
      assert (es + more)[1..] == es[1..] + more;
      FilesJoin(es[1..], more);
      assert Reported(es[0]) + (Files(es[1..]) + Files(more)) == Reported(es[0]) + Files(es[1..]) + Files(more);
    }
  }

  lemma FilesAround(before: seq<Entry>, e: Entry, upTo: seq<Entry>, behind: seq<Entry>)
    requires upTo == before + [e]
    ensures Files(upTo) == Files(before) + Reported(e)
    ensures Files(upTo + behind) == Files(upTo) + Files(behind)
  {
    FilesJoin(before, [e]);
    FilesJoin(upTo, behind);
    assert Files([e]) == Reported(e) by {
      assert [e][1..] == [] && Reported(e) + [] == Reported(e);
    }
  }

  // Entry i is file k of those reported, if it is of kind '0' or 0 and k entries before it
  // are.
  ghost predicate Placed(files: seq<File>, e: Entry, k: nat, next: nat) {
    if e.kind == 48 || e.kind == 0 then
      k < |files| && NameOf(e, files[k].name) && files[k].contents == e.contents && next == k + 1
    else next == k
  }

  lemma EntryPlaced(before: seq<Entry>, e: Entry, upTo: seq<Entry>, behind: seq<Entry>)
    requires upTo == before + [e]
    ensures Placed(Files(upTo + behind), e, |Files(before)|, |Files(upTo)|)
  {
    FilesAround(before, e, upTo, behind);
    NameIs(e);
  }

  // So in an archive that is unpacked: every regular entry is reported, in its place, under
  // its name and with its contents.
  lemma EntryIsFile(es: seq<Entry>, zeros: nat, i: nat)
    requires i < |es| && forall j :: 0 <= j < |es| ==> es[j].Proper() && es[j].Plain()
    ensures Placed(Unpacked(Archive(es, zeros), 0).0, es[i], |Files(es[..i])|, |Files(es[..i + 1])|)
    ensures |Unpacked(Archive(es, zeros), 0).0| == |Files(es[..|es|])|
  {
    ArchiveIsUnpacked(es, zeros);
    EntryPlaced(es[..i], es[i], es[..i + 1], es[i + 1..]);
    assert es[..i + 1] + es[i + 1..] == es && es[..|es|] == es;
  }
}
