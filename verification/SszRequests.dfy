/**
 * `encodeSszExecutionRequests`: execution requests in the Engine API form of EIP-7685
 * (request_type ++ request_data, ascending types, no empty entry) to SszExecutionRequests.
 */
module SszRequests {
  import opened Bytes
  import opened SszContainer
  import opened SszLists

  const REQUEST_TYPES := 5

  /** The form EIP-7685 allows; it leaves room for at most five entries. */
  predicate ValidRequests(rs: seq<Bytes>)
  {
    && (forall i :: 0 <= i < |rs| ==> |rs[i]| >= 2 && rs[i][0] < REQUEST_TYPES)
    && (forall i, j :: 0 <= i < j < |rs| ==> rs[i][0] < rs[j][0])
  }

  /** The request data of type `t`, empty when the block carries none. */
  function DataOf(rs: seq<Bytes>, t: nat): Bytes
  {
    if rs == [] then []
    else if |rs[0]| > 0 && rs[0][0] == t then rs[0][1..]
    else DataOf(rs[1..], t)
  }

  function RequestLists(rs: seq<Bytes>): (ls: seq<Bytes>)
    ensures |ls| == REQUEST_TYPES
  {
    seq(REQUEST_TYPES, t requires 0 <= t => DataOf(rs, t))
  }

  /** Back to the Engine API form: the non-empty lists from type `t` on, each with its type byte. */
  function RequestsFrom(ls: seq<Bytes>, t: nat): seq<Bytes>
    requires |ls| == REQUEST_TYPES && t <= REQUEST_TYPES
    decreases REQUEST_TYPES - t
  {
    if t == REQUEST_TYPES then []
    else (if ls[t] == [] then [] else [[t] + ls[t]]) + RequestsFrom(ls, t + 1)
  }

  function RequestsOf(ls: seq<Bytes>): seq<Bytes>
    requires |ls| == REQUEST_TYPES
  {
    RequestsFrom(ls, 0)
  }

  lemma {:induction false} DataOfAppend(rs: seq<Bytes>, r: Bytes, t: nat)
    requires r != [] && forall i :: 0 <= i < |rs| ==> rs[i] != [] && rs[i][0] != r[0]
    ensures DataOf(rs + [r], t) == if t == r[0] then r[1..] else DataOf(rs, t)
  {
    if rs == [] {
      assert [r][1..] == [];
    } else {
      assert (rs + [r])[1..] == rs[1..] + [r];
      DataOfAppend(rs[1..], r, t);
      if t == r[0] {
        NoData(rs, t);
      }
    }
  }

  lemma {:induction false} NoData(rs: seq<Bytes>, t: nat)
    requires forall i :: 0 <= i < |rs| && rs[i] != [] ==> rs[i][0] != t
    ensures DataOf(rs, t) == []
  {
    if rs != [] {
      NoData(rs[1..], t);
    }
  }

  lemma {:induction false} RequestsStep(rs: seq<Bytes>, i: nat)
    requires i < |rs| && ValidRequests(rs[..i]) && |rs[i]| >= 2 && rs[i][0] < REQUEST_TYPES
    requires i == 0 || rs[i - 1][0] < rs[i][0]
    ensures ValidRequests(rs[..i + 1])
    ensures RequestLists(rs[..i + 1]) == RequestLists(rs[..i])[rs[i][0] := rs[i][1..]]
  {
    var front, r := rs[..i], rs[i];
    assert rs[..i + 1] == front + [r];
    assert forall k :: 0 <= k < i ==> front[k][0] <= rs[i - 1][0];
    forall t | 0 <= t < REQUEST_TYPES
      ensures DataOf(front + [r], t) == if t == r[0] then r[1..] else DataOf(front, t)
    {
      DataOfAppend(front, r, t);
    }
  }

  /**
   * `encodeSszExecutionRequests`: fails on the first entry that is too short, of an unknown
   * type or out of order, and otherwise lays the five lists out as an SSZ container.
   */
  method EncodeExecutionRequests(requests: seq<Bytes>) returns (r: Option<Bytes>)
    ensures r.Some? <==> ValidRequests(requests)
    ensures r.Some? ==> r.value == ListBytes(RequestLists(requests))
  {
    var lists := seq(REQUEST_TYPES, _ => []);
    var last := -1;
    for i := 0 to |requests|
      invariant |lists| == REQUEST_TYPES
      invariant ValidRequests(requests[..i])
      invariant last == if i == 0 then -1 else requests[i - 1][0]
      invariant lists == RequestLists(requests[..i])
    {
      var req := requests[i];
      if |req| < 2 {
        return None;
      }
      var t := req[0];
      if t >= REQUEST_TYPES || t <= last {
        return None;
      }
      RequestsStep(requests, i);
      last := t;
      lists := lists[t := req[1..]];
    }
    assert requests[..|requests|] == requests;
    var b := EncodeRequestLists(lists);
    return Some(b);
  }

  /** One offset per type, then the lists. */
  method EncodeRequestLists(lists: seq<Bytes>) returns (buf: Bytes)
    ensures buf == ListBytes(lists)
  {
    var fixedSize := 4 * |lists|;
    var off := fixedSize;
    buf := [];
    for i := 0 to |lists|
      invariant buf == Head(Vars(lists[..i]), fixedSize)
      invariant off == fixedSize + |Flat(lists[..i])|
    {
      TableStep(lists, i, fixedSize);
      buf := buf + Le32(Wrap32(off));
      off := off + |lists[i]|;
    }
    ghost var table := buf;
    for i := 0 to |lists|
      invariant buf == table + Flat(lists[..i])
    {
      FlatStep(lists, i);
      buf := buf + lists[i];
    }
    VarsLayout(lists);
    assert lists[..|lists|] == lists;
  }

  lemma {:induction false} ValidTail(rs: seq<Bytes>)
    requires ValidRequests(rs) && rs != []
    ensures ValidRequests(rs[1..]) && forall i :: 0 <= i < |rs[1..]| ==> rs[0][0] < rs[1..][i][0]
  {
    assert forall i :: 0 <= i < |rs[1..]| ==> rs[1..][i] == rs[i + 1];
  }

  lemma {:induction false} AllAbove(rs: seq<Bytes>, t: nat)
    requires ValidRequests(rs) && (rs == [] || t < rs[0][0])
    ensures DataOf(rs, t) == []
  {
    if rs != [] {
      ValidTail(rs);
      NoData(rs[1..], t);
    }
  }

  lemma Cons(r: Bytes, data: Bytes, rest: seq<Bytes>)
    requires r != [] && data == r[1..]
    ensures [[r[0]] + data] + rest == [r] + rest
  {
    assert [r[0]] + data == r;
  }

  lemma {:induction false} RequestsFromLists(rs: seq<Bytes>, ls: seq<Bytes>, t: nat)
    requires ValidRequests(rs) && |ls| == REQUEST_TYPES && t <= REQUEST_TYPES
    requires rs == [] || t <= rs[0][0]
    requires forall u :: t <= u < REQUEST_TYPES ==> ls[u] == DataOf(rs, u)
    ensures RequestsFrom(ls, t) == rs
    decreases REQUEST_TYPES - t
  {
    if t < REQUEST_TYPES {
      if rs != [] && rs[0][0] == t {
        ValidTail(rs);
        RequestsFromLists(rs[1..], ls, t + 1);
        Cons(rs[0], ls[t], rs[1..]);
        assert rs == [rs[0]] + rs[1..];
      } else {
        AllAbove(rs, t);
        RequestsFromLists(rs, ls, t + 1);
      }
    }
  }

  lemma {:induction false} Prepend(t: nat, data: Bytes, rest: seq<Bytes>)
    requires t < REQUEST_TYPES && data != [] && ValidRequests(rest)
    requires forall i :: 0 <= i < |rest| ==> t < rest[i][0]
    ensures ValidRequests([[t] + data] + rest)
    ensures forall i :: 0 <= i < |[[t] + data] + rest| ==> t <= ([[t] + data] + rest)[i][0]
    ensures DataOf([[t] + data] + rest, t) == data
    ensures forall u: nat :: u != t ==> DataOf([[t] + data] + rest, u) == DataOf(rest, u)
  {
    var rs := [[t] + data] + rest;
    assert rs[0][0] == t && rs[0][1..] == data && rs[1..] == rest;
  }

  lemma {:induction false} RequestsFromValid(ls: seq<Bytes>, t: nat)
    requires |ls| == REQUEST_TYPES && t <= REQUEST_TYPES
    ensures ValidRequests(RequestsFrom(ls, t))
    ensures forall i :: 0 <= i < |RequestsFrom(ls, t)| ==> t <= RequestsFrom(ls, t)[i][0]
    decreases REQUEST_TYPES - t
  {
    if t < REQUEST_TYPES {
      RequestsFromValid(ls, t + 1);
      if ls[t] == [] {
        assert RequestsFrom(ls, t) == RequestsFrom(ls, t + 1);
      } else {
        Prepend(t, ls[t], RequestsFrom(ls, t + 1));
        assert RequestsFrom(ls, t) == [[t] + ls[t]] + RequestsFrom(ls, t + 1);
      }
    }
  }

  lemma {:induction false} ListsFromRequests(ls: seq<Bytes>, t: nat, u: nat)
    requires |ls| == REQUEST_TYPES && t <= u < REQUEST_TYPES
    ensures DataOf(RequestsFrom(ls, t), u) == ls[u]
    decreases u - t
  {
    var rs, rest := RequestsFrom(ls, t), RequestsFrom(ls, t + 1);
    RequestsFromValid(ls, t + 1);
    if ls[t] == [] {
      assert rs == rest;
      NoData(rest, t);
    } else {
      Prepend(t, ls[t], rest);
      assert rs == [[t] + ls[t]] + rest;
    }
    if u > t {
      ListsFromRequests(ls, t + 1, u);
    }
  }

  lemma {:induction false} RequestsFromLength(ls: seq<Bytes>, t: nat)
    requires |ls| == REQUEST_TYPES && t <= REQUEST_TYPES
    ensures TotalLength(ls[t..]) + |RequestsFrom(ls, t)| == TotalLength(RequestsFrom(ls, t))
    ensures |RequestsFrom(ls, t)| <= REQUEST_TYPES - t
    decreases REQUEST_TYPES - t
  {
    if t < REQUEST_TYPES {
      RequestsFromLength(ls, t + 1);
      var rs, rest := RequestsFrom(ls, t), RequestsFrom(ls, t + 1);
      assert ls[t..][0] == ls[t] && ls[t..][1..] == ls[t + 1..];
      if ls[t] == [] {
        assert rs == rest;
      } else {
        assert rs[0] == [t] + ls[t] && rs[1..] == rest;
      }
    }
  }

  /**
   * The two forms carry the same information: dropping the empty lists restores the request
   * list, and every choice of five lists comes from exactly one valid request list.
   */
  lemma {:induction false} RequestsRoundTrip(rs: seq<Bytes>, ls: seq<Bytes>)
    requires |ls| == REQUEST_TYPES
    ensures ValidRequests(rs) && RequestLists(rs) == ls <==> RequestsOf(ls) == rs
  {
    RequestsFromValid(ls, 0);
    forall u | 0 <= u < REQUEST_TYPES
      ensures DataOf(RequestsOf(ls), u) == ls[u]
    {
      ListsFromRequests(ls, 0, u);
    }
    assert RequestLists(RequestsOf(ls)) == ls;
    if ValidRequests(rs) {
      RequestsFromLists(rs, RequestLists(rs), 0);
    }
  }

  /** The encoding is the five offsets plus every request without its type byte. */
  lemma {:induction false} RequestsEncodedLength(rs: seq<Bytes>)
    requires ValidRequests(rs)
    ensures |ListBytes(RequestLists(rs))| == 20 + TotalLength(rs) - |rs|
    ensures |rs| <= REQUEST_TYPES
  {
    var ls := RequestLists(rs);
    RequestsRoundTrip(rs, ls);
    RequestsFromLength(ls, 0);
    assert ls[0..] == ls;
    ListLength(ls);
  }
}
