/**
 Ref names in a push: which are valid, where a client's ref is kept below the segment of its
 workspace, and that what is presented to the client is what the client named.
 */
module PushNames {
  import opened Options
  import opened Push

  // ----- valid names -------------------------------------------------------------------------------------

  predicate Doubled(s: string, c: char, i: nat) { i + 1 < |s| && s[i] == c && s[i + 1] == c }

  lemma ContainsDouble(s: string, c: char)
    ensures Contains(s, [c, c]) <==> exists i: nat :: Doubled(s, c, i)
  {
    if i :| 0 <= i <= |s| && [c, c] <= s[i..] {
      assert s[i..][0] == c && s[i..][1] == c;
      assert Doubled(s, c, i);
    }
    if i: nat :| Doubled(s, c, i) {
      assert s[i..][..2] == [c, c];
    }
  }

  lemma AllPrintable(s: string)
    ensures (forall c :: c in s ==> ' ' <= c && c != '\U{7f}') <==>
      (forall i :: 0 <= i < |s| ==> s[i] as int >= 0x20 && s[i] as int != 0x7f)
  {
    assert ' ' as int == 0x20 && '\U{7f}' as int == 0x7f;
    if forall c :: c in s ==> ' ' <= c && c != '\U{7f}' {
      forall i | 0 <= i < |s| ensures s[i] as int >= 0x20 && s[i] as int != 0x7f { assert s[i] in s; }
    }
  }

  /** Position by position: a name is valid exactly if it starts with `refs/`, has no two dots and no two
      slashes in a row, and no control character anywhere. */
  lemma ValidNameIff(s: string)
    ensures ValidName(s) <==>
      && |s| >= 5 && s[0] == 'r' && s[1] == 'e' && s[2] == 'f' && s[3] == 's' && s[4] == '/'
      && (forall i: nat :: !Doubled(s, '.', i) && !Doubled(s, '/', i))
      && (forall i :: 0 <= i < |s| ==> s[i] as int >= 0x20 && s[i] as int != 0x7f)
  {
    ContainsDouble(s, '.');
    ContainsDouble(s, '/');
    assert ".." == ['.', '.'] && "//" == ['/', '/'];
    hide Contains;
    AllPrintable(s);
    if "refs/" <= s { assert s[..5] == "refs/"; }
    if |s| >= 5 && s[0] == 'r' && s[1] == 'e' && s[2] == 'f' && s[3] == 's' && s[4] == '/' { assert s[..5] == "refs/"; }
  }

  // ----- workspaces --------------------------------------------------------------------------------------

  /** The name a client of that workspace sees. */
  function PresentedName(stored: RefName, segment: string): RefName {
    if segment != "" && "refs/" + segment <= stored then "refs/" + stored[5 + |segment|..] else stored
  }

  lemma PrefixOfPrefix(a: string, b: string, s: string)
    ensures a + b <= s ==> a <= s
  {
    if a + b <= s { assert s[..|a|] == s[..|a| + |b|][..|a|] == a; }
  }

  /** A client sees its ref under the very name it pushed, whatever the name and the workspace. */
  lemma PresentedIsClients(client: RefName, segment: string)
    ensures PresentedName(StoredName(client, segment), segment) == client
    ensures "refs/" <= client ==> "refs/" + segment <= StoredName(client, segment)
  {
    if "refs/" <= client {
      assert client == "refs/" + client[5..];
      var stored := "refs/" + segment + client[5..];
      if segment == "" {
        assert "refs/" + segment == "refs/";
      } else {
        assert StoredName(client, segment) == stored;
        assert stored[5 + |segment|..] == client[5..];
        assert stored[..5 + |segment|] == "refs/" + segment;
      }
    } else {
      PrefixOfPrefix("refs/", segment, client);
    }
  }

  /** The other way round a stored name comes back exactly if it lies in the workspace, there is none,
      or it is no ref at all. */
  lemma StoredComesBackIff(stored: RefName, segment: string)
    ensures StoredName(PresentedName(stored, segment), segment) == stored <==>
      segment == "" || "refs/" + segment <= stored || !("refs/" <= stored)
  {
    if segment != "" {
      if "refs/" + segment <= stored {
        var rest := stored[5 + |segment|..];
        assert stored == "refs/" + segment + rest;
        assert ("refs/" + rest)[5..] == rest;
      } else if "refs/" <= stored {
        var again := "refs/" + segment + stored[5..];
        assert again[..5 + |segment|] == "refs/" + segment;
        assert StoredName(PresentedName(stored, segment), segment) == again;
      }
    }
  }

  /** Two clients' refs share a place only if they are the same ref of the same workspace, where neither
      workspace lies inside the other. */
  lemma WorkspacesApart(a: RefName, b: RefName, sa: string, sb: string)
    requires "refs/" <= a && "refs/" <= b && StoredName(a, sa) == StoredName(b, sb)
    ensures sa <= sb || sb <= sa
    ensures sa == sb ==> a == b
  {
    PresentedIsClients(a, sa);
    PresentedIsClients(b, sb);
    var stored := StoredName(a, sa);
    assert stored[5..5 + |sa|] == sa by { assert stored[..5 + |sa|] == "refs/" + sa; }
    assert stored[5..5 + |sb|] == sb by { assert stored[..5 + |sb|] == "refs/" + sb; }
    if |sa| <= |sb| {
      assert stored[5..5 + |sb|][..|sa|] == stored[5..5 + |sa|];
    } else {
      assert stored[5..5 + |sa|][..|sb|] == stored[5..5 + |sb|];
    }
  }

  // ----- what a client is told ---------------------------------------------------------------------------

  /** Complete, on a valid name, with ids that resolve, and not the deletion of nothing. */
  predicate Meant(table: map<Sha, Oid>, missing: Option<Sha>, name: RefName, c: Command) {
    && missing.None? && ValidName(name) && (c.before == 0 || c.before in table) && (c.after == 0 || c.after in table)
    && !(c.before == 0 && c.after == 0)
  }

  /** Each refusal has one cause, checked in this order. */
  lemma RefusalSaysWhy(refs: Refs, table: map<Sha, Oid>, missing: Option<Sha>, segment: string, c: Command)
    ensures var (after, outcome) := Execute(refs, table, missing, segment, c);
      var name := StoredName(c.name, segment);
      && (!outcome.Accepted? ==> after == refs)
      && (forall s: nat :: outcome == MissingObject(s) <==> missing == Some(s))
      && (outcome == BadName <==> missing.None? && !ValidName(name))
      && (outcome == NullDelete <==> missing.None? && ValidName(name) && c.before == 0 && c.after == 0)
      && (outcome == UnknownNew <==> missing.None? && ValidName(name) && c.after != 0 && c.after !in table)
      && (outcome == UnknownOld <==>
            missing.None? && ValidName(name) && c.before != 0 && c.before !in table && (c.after == 0 || c.after in table))
      && (outcome == NoSuchRef <==> Meant(table, missing, name, c) && name !in refs && c.before != 0)
      && (outcome == Conflict <==>
            Meant(table, missing, name, c) && name in refs && (c.before == 0 || refs[name] != table[c.before]))
  {
    hide ValidName, StoredName;
  }
}
