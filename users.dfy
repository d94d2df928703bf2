/** The user records mirrored by the interface and the pure list operations
    its handlers apply to the mirror: reverse on load, prepend on create,
    patch-by-id on update and filter-by-id on delete. */
module Users {
  import opened Wrappers

  /** One record as returned by the backend: a numeric id and two strings. */
  datatype User = User(id: int, name: string, email: string)

  /** The create form's draft: no id, the server assigns one. */
  datatype NewUserDraft = NewUserDraft(name: string, email: string)

  /** The update form's draft: the target id is the text typed by the user. */
  datatype UpdateDraft = UpdateDraft(id: string, name: string, email: string)

  const EmptyNewUser := NewUserDraft("", "")
  const EmptyUpdate := UpdateDraft("", "", "")

  /** No two records of `s` share an id (the backend assigns unique ids; the
      component itself never checks this). */
  ghost predicate UniqueIds(s: seq<User>) {
    forall i, j :: 0 <= i < j < |s| ==> s[i].id != s[j].id
  }

  /** The number of records of `s` whose id is `id`. */
  function CountId(s: seq<User>, id: int): (n: nat)
    ensures n <= |s|
    ensures n == 0 <==> forall i :: 0 <= i < |s| ==> s[i].id != id
  {
    if s == [] then 0
    else (if s[0].id == id then 1 else 0) + CountId(s[1..], id)
  }

  /** `r` occurs in `s` in the same relative order, possibly with gaps. */
  ghost predicate Subsequence(r: seq<User>, s: seq<User>)
    decreases |s|
  {
    r == [] || (s != [] && if r[0] == s[0] then Subsequence(r[1..], s[1..]) else Subsequence(r, s[1..]))
  }

  // ---------------------------------------------------------------------
  // Initial load: the list becomes the response in reverse order.
  // ---------------------------------------------------------------------

  /** The sequence read back to front. */
  function Reverse<T>(s: seq<T>): (r: seq<T>)
    ensures |r| == |s|
    ensures forall i :: 0 <= i < |s| ==> r[i] == s[|s| - 1 - i]
  {
    if s == [] then [] else [s[|s| - 1]] + Reverse(s[..|s| - 1])
  }

  /** Reversing twice gives back the response as the server sent it. */
  lemma ReverseInvolutive<T>(s: seq<T>)
    ensures Reverse(Reverse(s)) == s
  {
  }

  /** Reversal neither loses nor duplicates a record. */
  lemma {:induction false} ReversePermutes<T>(s: seq<T>)
    ensures multiset(Reverse(s)) == multiset(s)
  {
    if s != [] {
      var init := s[..|s| - 1];
      ReversePermutes(init);
      assert s == init + [s[|s| - 1]];
    }
  }

  /** The records of a loaded list have unique ids exactly when the response did. */
  lemma ReverseKeepsUniqueIds(s: seq<User>)
    ensures UniqueIds(Reverse(s)) <==> UniqueIds(s)
  {
    var r := Reverse(s);
    if UniqueIds(s) {
      forall i, j | 0 <= i < j < |r| ensures r[i].id != r[j].id {
        assert r[i] == s[|s| - 1 - i] && r[j] == s[|s| - 1 - j];
      }
    }
    if UniqueIds(r) {
      forall i, j | 0 <= i < j < |s| ensures s[i].id != s[j].id {
        assert r[|s| - 1 - j] == s[j] && r[|s| - 1 - i] == s[i];
      }
    }
  }

  // ---------------------------------------------------------------------
  // Create: the returned record goes in front of the existing list.
  // ---------------------------------------------------------------------

  /** `u` followed by the records of `s`, each moved down one place. */
  function Prepend(u: User, s: seq<User>): (r: seq<User>)
    ensures |r| == |s| + 1 && r[0] == u
    ensures forall i :: 0 <= i < |s| ==> r[i + 1] == s[i]
  {
    [u] + s
  }

  /** Deleting a freshly created record whose id was new restores the list. */
  lemma DeleteUndoesPrepend(u: User, s: seq<User>)
    requires CountId(s, u.id) == 0
    ensures DeleteById(Prepend(u, s), u.id) == s
  {
  }

  /** Prepending keeps ids unique exactly when the new id is not already used. */
  lemma PrependKeepsUniqueIds(u: User, s: seq<User>)
    requires UniqueIds(s)
    ensures UniqueIds(Prepend(u, s)) <==> CountId(s, u.id) == 0
  {
  }

  // ---------------------------------------------------------------------
  // Update: every record whose id equals the parsed draft id gets the
  // draft's name and email; a draft id that does not parse matches nothing.
  // ---------------------------------------------------------------------

  /** Whether record `u` is addressed by the parsed id `target`. */
  predicate Targets(target: Option<int>, u: User) {
    target == Some(u.id)
  }

  /** The list with name and email replaced on every record `target` addresses. */
  function UpdateById(s: seq<User>, target: Option<int>, name: string, email: string): (r: seq<User>)
    ensures |r| == |s|
    ensures forall i :: 0 <= i < |s| ==> r[i].id == s[i].id
    ensures forall i :: 0 <= i < |s| && Targets(target, s[i]) ==> r[i].name == name && r[i].email == email
    ensures forall i :: 0 <= i < |s| && !Targets(target, s[i]) ==> r[i] == s[i]
  {
    if s == [] then []
    else
      var head := if Targets(target, s[0]) then s[0].(name := name, email := email) else s[0];
      [head] + UpdateById(s[1..], target, name, email)
  }

  /** An id text that does not parse, or an id no record has, changes nothing. */
  lemma UpdateWithoutMatchIsIdentity(s: seq<User>, target: Option<int>, name: string, email: string)
    requires target.None? || CountId(s, target.value) == 0
    ensures UpdateById(s, target, name, email) == s
  {
  }

  /** Submitting the same update twice has the effect of submitting it once. */
  lemma UpdateIdempotent(s: seq<User>, target: Option<int>, name: string, email: string)
    ensures UpdateById(UpdateById(s, target, name, email), target, name, email)
         == UpdateById(s, target, name, email)
  {
  }

  /** With unique ids, updating an existing id rewrites exactly that one record. */
  lemma UpdateUniqueRewritesOne(s: seq<User>, k: nat, name: string, email: string)
    requires UniqueIds(s) && k < |s|
    ensures UpdateById(s, Some(s[k].id), name, email) == s[k := s[k].(name := name, email := email)]
  {
  }

  /** Updating never touches ids, so it keeps them unique. */
  lemma UpdateKeepsUniqueIds(s: seq<User>, target: Option<int>, name: string, email: string)
    requires UniqueIds(s)
    ensures UniqueIds(UpdateById(s, target, name, email))
  {
  }

  // ---------------------------------------------------------------------
  // Delete: keep the records whose id differs from the deleted one.
  // ---------------------------------------------------------------------

  /** The records of `s` whose id is not `id`, in their original order. */
  function DeleteById(s: seq<User>, id: int): (r: seq<User>)
    ensures |r| == |s| - CountId(s, id)
    ensures forall i :: 0 <= i < |r| ==> r[i].id != id
    ensures forall u :: multiset(r)[u] == if u.id == id then 0 else multiset(s)[u]
    ensures Subsequence(r, s)
  {
    if s == [] then []
    else
      assert s == [s[0]] + s[1..];
      var rest := DeleteById(s[1..], id);
      if s[0].id == id then
        assert rest == [] || rest[0] != s[0];
        rest
      else
        assert ([s[0]] + rest)[1..] == rest;
        [s[0]] + rest
  }

  /** Deleting an id no record carries leaves the list as it was. */
  lemma {:induction false} DeleteAbsentIsIdentity(s: seq<User>, id: int)
    requires CountId(s, id) == 0
    ensures DeleteById(s, id) == s
  {
    if s != [] {
      DeleteAbsentIsIdentity(s[1..], id);
      assert s == [s[0]] + s[1..];
    }
  }

  /** A second delete of the same id finds nothing left to remove. */
  lemma DeleteIdempotent(s: seq<User>, id: int)
    ensures DeleteById(DeleteById(s, id), id) == DeleteById(s, id)
  {
    DeleteAbsentIsIdentity(DeleteById(s, id), id);
  }

  /** With unique ids, deleting an existing id removes exactly that one record. */
  lemma {:induction false} DeleteUniqueRemovesOne(s: seq<User>, k: nat)
    requires UniqueIds(s) && k < |s|
    ensures DeleteById(s, s[k].id) == s[..k] + s[k + 1..]
  {
    var id := s[k].id;
    DeleteStep(s, id);
    UniqueIdsTail(s);
    if k == 0 {
      DeleteAbsentIsIdentity(s[1..], id);
    } else {
      assert s[1..][k - 1] == s[k];
      DeleteUniqueRemovesOne(s[1..], k - 1);
      SplitAfterHead(s, k);
    }
  }

  /** The tail of a list with unique ids has unique ids, none of them the head's. */
  lemma UniqueIdsTail(s: seq<User>)
    requires UniqueIds(s) && s != []
    ensures UniqueIds(s[1..]) && CountId(s[1..], s[0].id) == 0
    ensures forall k :: 0 < k < |s| ==> s[k].id != s[0].id
  {
  }

  /** Cutting `s` around position `k` is cutting its tail around `k - 1`. */
  lemma SplitAfterHead<T>(s: seq<T>, k: nat)
    requires 0 < k < |s|
    ensures s[..k] + s[k + 1..] == [s[0]] + (s[1..][..k - 1] + s[1..][k..])
  {
  }

  /** One step of the filter: the head survives exactly when its id differs. */
  lemma DeleteStep(s: seq<User>, id: int)
    requires s != []
    ensures DeleteById(s, id) == (if s[0].id == id then [] else [s[0]]) + DeleteById(s[1..], id)
  {
  }

  /** Deleting keeps the surviving ids unique. */
  lemma DeleteKeepsUniqueIds(s: seq<User>, id: int)
    requires UniqueIds(s)
    ensures UniqueIds(DeleteById(s, id))
  {
    var r := DeleteById(s, id);
    SubsequenceKeepsUniqueIds(r, s);
  }

  /** Any subsequence of a list with unique ids has unique ids. */
  lemma {:induction false} SubsequenceKeepsUniqueIds(r: seq<User>, s: seq<User>)
    requires Subsequence(r, s) && UniqueIds(s)
    ensures UniqueIds(r)
    decreases |s|
  {
    if r != [] {
      UniqueIdsTail(s);
      if r[0] == s[0] {
        SubsequenceKeepsUniqueIds(r[1..], s[1..]);
        SubsequenceMembers(r[1..], s[1..]);
        forall i, j | 0 <= i < j < |r| ensures r[i].id != r[j].id {
          if i == 0 {
            assert r[j] == r[1..][j - 1];
            var m :| 0 <= m < |s[1..]| && s[1..][m] == r[j];
            assert s[m + 1] == r[j];
          } else {
            assert r[i] == r[1..][i - 1] && r[j] == r[1..][j - 1];
          }
        }
      } else {
        SubsequenceKeepsUniqueIds(r, s[1..]);
      }
    }
  }

  /** Every record of a subsequence of `s` is a record of `s`. */
  lemma {:induction false} SubsequenceMembers(r: seq<User>, s: seq<User>)
    requires Subsequence(r, s)
    ensures forall i :: 0 <= i < |r| ==> exists m :: 0 <= m < |s| && s[m] == r[i]
    decreases |s|
  {
    if r != [] {
      if r[0] == s[0] {
        SubsequenceMembers(r[1..], s[1..]);
        forall i | 0 <= i < |r| ensures exists m :: 0 <= m < |s| && s[m] == r[i] {
          if i == 0 {
            assert s[0] == r[0];
          } else {
            assert r[i] == r[1..][i - 1];
            var m :| 0 <= m < |s[1..]| && s[1..][m] == r[i];
            assert s[m + 1] == r[i];
          }
        }
      } else {
        SubsequenceMembers(r, s[1..]);
        forall i | 0 <= i < |r| ensures exists m :: 0 <= m < |s| && s[m] == r[i] {
          var m :| 0 <= m < |s[1..]| && s[1..][m] == r[i];
          assert s[m + 1] == r[i];
        }
      }
    }
  }
}
