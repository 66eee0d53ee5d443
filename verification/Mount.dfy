/** Which mountpoint a file lies on: the best-so-far search of `mount_query`. */
module Mount {
  import opened IntrusiveList

  datatype MountDetails = MountDetails(devicePath: string, mountPath: string, filesystem: string, options: string)

  /** `path_on_mountpoint`: zero for no match. The strings carry no terminator, so reading the
      one after a prefix as long as the path finds no slash. */
  function PathOnMountpoint(path: string, mountpoint: string): nat {
    if mountpoint == "/" then 1
    else if mountpoint <= path && |mountpoint| < |path| && path[|mountpoint|] == '/' then |mountpoint| + 1
    else 0
  }

  /** The components of a path: the texts between its slashes. */
  function Split(path: string): (parts: seq<string>)
    ensures parts != []
  {
    if path == "" then [""] else Prepend(path[0], Split(path[1..]))
  }

  function Prepend(c: char, parts: seq<string>): (r: seq<string>)
    requires parts != []
    ensures r != []
  {
    if c == '/' then [""] + parts else [[c] + parts[0]] + parts[1..]
  }

  lemma PrependConcat(c: char, a: seq<string>, b: seq<string>)
    requires a != []
    ensures Prepend(c, a + b) == Prepend(c, a) + b
  {
    assert c != '/' ==> (a + b)[1..] == a[1..] + b;
    assert c == '/' ==> [""] + (a + b) == [""] + a + b;
  }

  function Join(parts: seq<string>): string
    requires parts != []
  {
    if |parts| == 1 then parts[0] else parts[0] + "/" + Join(parts[1..])
  }

  lemma {:induction false} SplitSlash(a: string, b: string)
    ensures Split(a + "/" + b) == Split(a) + Split(b)
  {
    var whole := a + "/" + b;
    if a == "" {
      assert whole[0] == '/' && whole[1..] == b;
    } else {
      SplitSlash(a[1..], b);
      assert whole[0] == a[0] && whole[1..] == a[1..] + "/" + b;
      PrependConcat(a[0], Split(a[1..]), Split(b));
    }
  }

  lemma {:induction false} JoinHead(c: char, parts: seq<string>)
    requires parts != []
    ensures Join([[c] + parts[0]] + parts[1..]) == [c] + Join(parts)
  {
    assert ([[c] + parts[0]] + parts[1..])[1..] == parts[1..];
  }

  lemma {:induction false} JoinSplit(path: string)
    ensures Join(Split(path)) == path
  {
    if path != "" {
      JoinSplit(path[1..]);
      var parts := Split(path[1..]);
      if path[0] == '/' {
        assert ([""] + parts)[1..] == parts;
      } else {
        JoinHead(path[0], parts);
      }
    }
  }

  /** The slashes are all gone, and between the components. */
  lemma {:induction false} NoSlashInside(path: string)
    ensures forall i, k :: 0 <= i < |Split(path)| && 0 <= k < |Split(path)[i]| ==> Split(path)[i][k] != '/'
  {
    if path != "" {
      NoSlashInside(path[1..]);
    }
  }

  lemma {:induction false} JoinConcat(a: seq<string>, b: seq<string>)
    requires a != [] && b != []
    ensures Join(a + b) == Join(a) + "/" + Join(b)
  {
    if |a| == 1 {
      assert (a + b)[1..] == b;
    } else {
      JoinConcat(a[1..], b);
      assert (a + b)[1..] == a[1..] + b;
    }
  }

  /** Apart from the root, which takes every path, a mountpoint takes a path exactly when its
      components are a proper prefix of the path's: `/mnt/a` takes `/mnt/a/f` but neither
      `/mnt/ab` nor `/mnt/a` itself. */
  lemma {:induction false} OnMountpointIsComponentwise(path: string, mountpoint: string)
    ensures mountpoint != "/" ==> (PathOnMountpoint(path, mountpoint) > 0 <==> Split(mountpoint) < Split(path))
  {
    if mountpoint <= path && |mountpoint| < |path| && path[|mountpoint|] == '/' {
      var rest := path[|mountpoint| + 1..];
      assert path == mountpoint + "/" + rest;
      SplitSlash(mountpoint, rest);
    }
    if Split(mountpoint) < Split(path) {
      var a, b := Split(mountpoint), Split(path)[|Split(mountpoint)|..];
      assert Split(path) == a + b;
      JoinConcat(a, b);
      JoinSplit(mountpoint);
      JoinSplit(path);
      assert path == mountpoint + "/" + Join(b);
    }
  }

  /** Two mountpoints that take a path lie on one line of ancestors, and the longer match is the
      one with more components. The root matches with length 1, which no other match is below. */
  lemma {:induction false} LongerIsDeeper(path: string, a: string, b: string)
    requires PathOnMountpoint(path, a) > 0 && PathOnMountpoint(path, b) > 0 && a != "/" && b != "/"
    ensures PathOnMountpoint(path, a) < PathOnMountpoint(path, b) <==> Split(a) < Split(b)
    ensures PathOnMountpoint(path, a) == PathOnMountpoint(path, b) <==> a == b
  {
    if |a| < |b| {
      assert b[|a|] == path[|a|] && b == a + "/" + b[|a| + 1..];
      SplitSlash(a, b[|a| + 1..]);
    } else if |b| < |a| {
      assert a[|b|] == path[|b|] && a == b + "/" + a[|b| + 1..];
      SplitSlash(b, a[|b| + 1..]);
    } else {
      assert a == path[..|a|] == b;
    }
  }

  /** The root takes every path, with the shortest match. */
  lemma RootTakesAll(path: string, mountpoint: string)
    ensures 0 < PathOnMountpoint(path, "/")
    ensures PathOnMountpoint(path, mountpoint) > 0 ==>
              PathOnMountpoint(path, "/") <= PathOnMountpoint(path, mountpoint)
    ensures PathOnMountpoint(path, mountpoint) == PathOnMountpoint(path, "/") ==> mountpoint in {"", "/"}
  {
  }

  /** No answer means that the root is not listed and no listed mountpoint is an ancestor. */
  lemma NoneExactly(mounts: seq<MountDetails>, path: string)
    ensures (forall i :: 0 <= i < |mounts| ==> PathOnMountpoint(path, mounts[i].mountPath) == 0)
            <==> (forall i :: 0 <= i < |mounts| ==>
                    mounts[i].mountPath != "/" && !(Split(mounts[i].mountPath) < Split(path)))
  {
    forall i | 0 <= i < |mounts|
      ensures PathOnMountpoint(path, mounts[i].mountPath) == 0
              <==> mounts[i].mountPath != "/" && !(Split(mounts[i].mountPath) < Split(path))
    {
      OnMountpointIsComponentwise(path, mounts[i].mountPath);
    }
  }

  /** Position `k` is the answer for `path`: the first of the longest matches. */
  ghost predicate Chosen(mounts: seq<MountDetails>, path: string, k: nat) {
    && k < |mounts| && PathOnMountpoint(path, mounts[k].mountPath) > 0
    && (forall i :: 0 <= i < k ==>
          PathOnMountpoint(path, mounts[i].mountPath) < PathOnMountpoint(path, mounts[k].mountPath))
    && (forall i :: k <= i < |mounts| ==>
          PathOnMountpoint(path, mounts[i].mountPath) <= PathOnMountpoint(path, mounts[k].mountPath))
  }

  /** `mount_query` */
  method MountQuery(cache: List<MountDetails>, path: string) returns (best: ListNode?<MountDetails>, ghost k: nat)
    requires cache.Valid()
    ensures best == null
            <==> forall i :: 0 <= i < |cache.nodes| ==> PathOnMountpoint(path, cache.Items()[i].mountPath) == 0
    ensures best != null ==> Chosen(cache.Items(), path, k) && cache.nodes[k] == best
  {
    hide Ring, ItemsOf, PathOnMountpoint;
    ghost var mounts := cache.Items();
    cache.AtIs(0);
    var current := cache.head.next;
    ghost var n: nat := 0;
    var matchLen := 0;
    best, k := null, 0;
    while current != cache.head
      invariant n <= |cache.nodes| && current == At(cache.head, cache.nodes, n)
      invariant forall i :: 0 <= i < n ==> PathOnMountpoint(path, mounts[i].mountPath) <= matchLen
      invariant best == null <==> matchLen == 0
      invariant best != null ==>
                k < n && cache.nodes[k] == best && matchLen == PathOnMountpoint(path, mounts[k].mountPath)
      invariant best != null ==> forall i :: 0 <= i < k ==> PathOnMountpoint(path, mounts[i].mountPath) < matchLen
      decreases |cache.nodes| - n
    {
      cache.AtIs(n);
      var len := PathOnMountpoint(path, current.item.mountPath);
      assert mounts[n] == current.item;
      if len > matchLen {
        best, k := current, n;
        matchLen := len;
      }
      cache.AtIs(n + 1);
      current := current.next;
      n := n + 1;
    }
    cache.AtIs(n);
  }

  /** Two matches of the same length are the same mountpoint, but for the root and the empty
      path, which both match an absolute path with length 1. */
  lemma {:induction false} TieIsSamePath(path: string, a: string, b: string)
    requires PathOnMountpoint(path, a) > 0 && PathOnMountpoint(path, a) == PathOnMountpoint(path, b)
    ensures a == b || (path[..1] == "/" && ((a == "" && b == "/") || (a == "/" && b == "")))
  {
    if a != "/" && b != "/" {
      LongerIsDeeper(path, a, b);
    }
  }

  /** Whether the root and the empty path compete for an absolute path that nothing deeper takes. */
  ghost predicate Ambiguous(mounts: seq<MountDetails>, path: string) {
    && path != "" && path[0] == '/'
    && (exists i :: 0 <= i < |mounts| && mounts[i].mountPath == "")
    && (exists i :: 0 <= i < |mounts| && mounts[i].mountPath == "/")
    && (forall i :: 0 <= i < |mounts| ==> PathOnMountpoint(path, mounts[i].mountPath) <= 1)
  }

  /** The answer is the deepest listed ancestor of the path: every other mountpoint that takes
      the path is a component-wise prefix of it, and the root is chosen only if nothing but the
      root and the empty path takes it. */
  lemma {:induction false} ChosenIsDeepest(mounts: seq<MountDetails>, path: string, k: nat)
    requires Chosen(mounts, path, k)
    ensures mounts[k].mountPath != "/" ==> Split(mounts[k].mountPath) < Split(path)
    ensures forall i :: 0 <= i < |mounts| && mounts[i].mountPath != "/" && Split(mounts[i].mountPath) < Split(path) ==>
              if mounts[k].mountPath == "/" then mounts[i].mountPath == ""
              else Split(mounts[i].mountPath) <= Split(mounts[k].mountPath)
  {
    var best := mounts[k].mountPath;
    OnMountpointIsComponentwise(path, best);
    forall i | 0 <= i < |mounts| && mounts[i].mountPath != "/" && Split(mounts[i].mountPath) < Split(path)
      ensures if best == "/" then mounts[i].mountPath == "" else Split(mounts[i].mountPath) <= Split(best)
    {
      OnMountpointIsComponentwise(path, mounts[i].mountPath);
      assert PathOnMountpoint(path, mounts[i].mountPath) <= PathOnMountpoint(path, best);
      if best != "/" {
        LongerIsDeeper(path, mounts[i].mountPath, best);
      }
    }
  }

  /** The same mounts, listed in another order, give this path another mountpoint. */
  ghost predicate OrderMatters(mounts: seq<MountDetails>, path: string) {
    exists others: seq<MountDetails>, k: nat, j: nat ::
      multiset(others) == multiset(mounts) && Chosen(mounts, path, k) && Chosen(others, path, j)
      && mounts[k].mountPath != others[j].mountPath
  }

  lemma {:induction false} SameOrderedAnswer(mounts: seq<MountDetails>, others: seq<MountDetails>, path: string,
      k: nat, j: nat)
    requires multiset(others) == multiset(mounts) && Chosen(mounts, path, k) && Chosen(others, path, j)
    ensures PathOnMountpoint(path, mounts[k].mountPath) == PathOnMountpoint(path, others[j].mountPath)
    ensures mounts[k].mountPath == others[j].mountPath || Ambiguous(mounts, path)
  {
    assert others[j] in multiset(mounts) && mounts[k] in multiset(others);
    var i :| 0 <= i < |mounts| && mounts[i] == others[j];
    var l :| 0 <= l < |others| && others[l] == mounts[k];
    assert PathOnMountpoint(path, mounts[i].mountPath) <= PathOnMountpoint(path, mounts[k].mountPath);
    assert PathOnMountpoint(path, others[l].mountPath) <= PathOnMountpoint(path, others[j].mountPath);
    TieIsSamePath(path, mounts[k].mountPath, others[j].mountPath);
  }

  /** The order of the list matters exactly when an empty mount path competes with the root. */
  lemma {:induction false} OrderMattersExactly(mounts: seq<MountDetails>, path: string)
    ensures OrderMatters(mounts, path) <==> Ambiguous(mounts, path)
  {
    hide PathOnMountpoint, Ambiguous;
    if OrderMatters(mounts, path) {
      var others: seq<MountDetails>, k: nat, j: nat :|
        multiset(others) == multiset(mounts) && Chosen(mounts, path, k) && Chosen(others, path, j)
        && mounts[k].mountPath != others[j].mountPath;
      SameOrderedAnswer(mounts, others, path, k, j);
    }
    if Ambiguous(mounts, path) {
      var k := FirstMatch(mounts, path);
      var i := Rival(mounts, path, k);
      SwapChosen(mounts, path, k, i);
      ByOrder(mounts, mounts[k := mounts[i]][i := mounts[k]], path, k, k);
    }
  }

  lemma ByOrder(mounts: seq<MountDetails>, others: seq<MountDetails>, path: string, k: nat, j: nat)
    requires multiset(others) == multiset(mounts) && Chosen(mounts, path, k) && Chosen(others, path, j)
    requires mounts[k].mountPath != others[j].mountPath
    ensures OrderMatters(mounts, path)
  {
  }

  lemma Rival(mounts: seq<MountDetails>, path: string, k: nat) returns (i: nat)
    requires Ambiguous(mounts, path) && Chosen(mounts, path, k)
    ensures k < i < |mounts| && mounts[i].mountPath != mounts[k].mountPath
    ensures PathOnMountpoint(path, mounts[i].mountPath) == PathOnMountpoint(path, mounts[k].mountPath)
  {
    TieIsSamePath(path, mounts[k].mountPath, "/");
    i :| 0 <= i < |mounts| && mounts[i].mountPath == if mounts[k].mountPath == "/" then "" else "/";
  }

  lemma SwapChosen(mounts: seq<MountDetails>, path: string, k: nat, i: nat)
    requires Chosen(mounts, path, k) && k < i < |mounts|
    requires PathOnMountpoint(path, mounts[i].mountPath) == PathOnMountpoint(path, mounts[k].mountPath)
    ensures var others := mounts[k := mounts[i]][i := mounts[k]];
            multiset(others) == multiset(mounts) && Chosen(others, path, k) && others[k] == mounts[i]
  {
  }

  /** When some mountpoint matches with length 1 and none with more, the first match is chosen. */
  lemma {:induction false} FirstMatch(mounts: seq<MountDetails>, path: string) returns (k: nat)
    requires Ambiguous(mounts, path)
    ensures Chosen(mounts, path, k) && PathOnMountpoint(path, mounts[k].mountPath) == 1
  {
    k := 0;
    while PathOnMountpoint(path, mounts[k].mountPath) == 0
      invariant k < |mounts| && forall i :: 0 <= i < k ==> PathOnMountpoint(path, mounts[i].mountPath) == 0
      decreases |mounts| - k
    {
      k := k + 1;
      assert exists i :: 0 <= i < |mounts| && mounts[i].mountPath == "/";
    }
  }
}
