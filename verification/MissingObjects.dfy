/** The paginated listing of a group's missing objects. */
module MissingObjects {
  import opened PyLists

  type Oid = string

  /** One reply: some objects, and the `more` field when present. */
  datatype Page = Page(objects: seq<Oid>, more: Option<int>)

  predicate Last(p: Page) {
    p.more.None? || p.more.value == 0
  }

  /** More is to come, but there is no last object to resume from. */
  predicate Stuck(p: Page) {
    !Last(p) && p.objects == []
  }

  /** Where a listing resumes: after the object named, or at the start. */
  ghost predicate Resumes(all: seq<Oid>, offset: Option<Oid>, at: nat) {
    match offset
    case None => at == 0
    case Some(o) => 0 < at <= |all| && all[at - 1] == o
  }

  /** A truthful reply: objects that follow the offset, and all of them if no more are to come. */
  ghost predicate Truthful(all: seq<Oid>, offset: Option<Oid>, p: Page) {
    forall at: nat :: at <= |all| && Resumes(all, offset, at) ==>
      p.objects <= all[at..] && (Last(p) ==> p.objects == all[at..])
  }

  /** The offset that call `k` of a listing sends, if the listing gets that far. */
  function Sent(server: (nat, Option<Oid>) -> Page, k: nat): Option<Option<Oid>> {
    if k == 0 then Some(None)
    else
      match Sent(server, k - 1)
      case None => None
      case Some(offset) =>
        var p := server(k - 1, offset);
        if Last(p) || p.objects == [] then None else Some(Some(p.objects[|p.objects| - 1]))
  }

  ghost predicate Reaches(server: (nat, Option<Oid>) -> Page, k: nat, p: Page) {
    Sent(server, k).Some? && p == server(k, Sent(server, k).value)
  }

  lemma {:induction false} NothingLater(server: (nat, Option<Oid>) -> Page, k: nat, l: nat)
    requires Sent(server, k).None? && k <= l
    ensures Sent(server, l).None?
  {
    if k < l {
      NothingLater(server, k, l - 1);
    }
  }

  /**
   `list_pg_missing`, where None is the IndexError of a page that announces more and holds
   nothing. The server may page as it likes, as long as it is truthful about the one list
   `all`; the calls are numbered so that its answers may depend on them.
   */
  method ListPgMissing(ghost all: seq<Oid>, server: (nat, Option<Oid>) -> Page) returns (r: Option<seq<Oid>>, calls: nat)
    requires forall k, offset :: Truthful(all, offset, server(k, offset))
    ensures r.Some? ==> r.value == all
    ensures r.None? <==> exists k: nat, p :: Reaches(server, k, p) && Stuck(p)
    ensures 1 <= calls <= |all| + 1
  {
    var got: seq<Oid> := [];
    calls := 0;
    var offset: Option<Oid> := None;
    while true
      invariant got <= all && Resumes(all, offset, |got|) && calls <= |got|
      invariant Sent(server, calls) == Some(offset)
      invariant forall k: nat, p :: k < calls && Reaches(server, k, p) ==> !Stuck(p)
      decreases |all| - |got|
    {
      var j := server(calls, offset);
      assert Truthful(all, offset, j) && Reaches(server, calls, j);
      calls := calls + 1;
      ghost var at := |got|;
      assert j.objects <= all[at..];
      got := got + j.objects;
      if Last(j) {
        assert all == all[..at] + all[at..];
        break;
      }
      if j.objects == [] { return None, calls; }
      offset := Some(j.objects[|j.objects| - 1]);
      assert all[|got| - 1] == got[|got| - 1];
    }
    forall k: nat, p | Reaches(server, k, p) ensures !Stuck(p) {
      if k >= calls {
        NothingLater(server, calls, k);
      }
    }
    r := Some(got);
  }
}
