/** exchange of getopt: two neighbouring blocks of arguments change places. */
module Exchange {

  /** The arguments with the blocks [bottom, middle) and [middle, top) exchanged. */
  function Exchanged<T>(s: seq<T>, bottom: nat, middle: nat, top: nat): (r: seq<T>)
    requires bottom <= middle <= top <= |s|
    ensures |r| == |s|
  {
    s[..bottom] + s[middle..top] + s[bottom..middle] + s[top..]
  }

  /** With `len` cells from `p` on and from `q` on swapped. */
  function Swapped<T>(s: seq<T>, p: nat, q: nat, len: nat): (r: seq<T>)
    requires p + len <= q && q + len <= |s|
    ensures |r| == |s|
  {
    s[..p] + s[q..q + len] + s[p + len..q] + s[p..p + len] + s[q + len..]
  }

  method SwapCells<T>(argv: array<T>, p: nat, q: nat, len: nat)
    requires p + len <= q && q + len <= argv.Length
    modifies argv
    ensures argv[..] == Swapped(old(argv[..]), p, q, len)
  {
    ghost var s := argv[..];
    for i := 0 to len
      invariant forall k :: p <= k < p + i ==> argv[k] == s[k + (q - p)]
      invariant forall k :: q <= k < q + i ==> argv[k] == s[k - (q - p)]
      invariant forall k :: 0 <= k < argv.Length && !(p <= k < p + i) && !(q <= k < q + i) ==> argv[k] == s[k]
    {
      var tem := argv[p + i];
      argv[p + i] := argv[q + i];
      argv[q + i] := tem;
    }
    SwappedIs(s, argv[..], p, q, len);
  }

  lemma SwappedIs<T>(s: seq<T>, r: seq<T>, p: nat, q: nat, len: nat)
    requires p + len <= q && q + len <= |s| == |r|
    requires forall k :: p <= k < p + len ==> r[k] == s[k + (q - p)]
    requires forall k :: q <= k < q + len ==> r[k] == s[k - (q - p)]
    requires forall k :: 0 <= k < |s| && !(p <= k < p + len) && !(q <= k < q + len) ==> r[k] == s[k]
    ensures r == Swapped(s, p, q, len)
  {
  }

  /** The shorter block in front goes to the far end of the longer one. */
  lemma SwapBottom<T>(s: seq<T>, t: seq<T>, bottom: nat, middle: nat, top: nat, far: nat)
    requires bottom <= middle <= far <= top <= |s| && top - far == middle - bottom
    requires t == Swapped(s, bottom, far, middle - bottom)
    ensures Exchanged(t, bottom, middle, far) == Exchanged(s, bottom, middle, top)
  {
    var a, b1, b2 := s[bottom..middle], s[middle..far], s[far..top];
    assert s[middle..top] == b1 + b2;
    assert t[..bottom] == s[..bottom] && t[bottom..middle] == b2 && t[middle..far] == b1;
    assert t[far..] == a + s[top..];
  }

  /** The shorter block behind goes to the far end of the longer one. */
  lemma SwapTop<T>(s: seq<T>, bottom: nat, middle: nat, top: nat)
    requires bottom <= middle <= top <= |s| && top - middle <= middle - bottom
    ensures var len := top - middle;
            Exchanged(Swapped(s, bottom, middle, len), bottom + len, middle, top) == Exchanged(s, bottom, middle, top)
  {
    var len := top - middle;
    var a1, a2, b := s[bottom..bottom + len], s[bottom + len..middle], s[middle..top];
    assert s[bottom..middle] == a1 + a2;
    var t := Swapped(s, bottom, middle, len);
    assert t[..bottom + len] == s[..bottom] + b;
    assert t[bottom + len..middle] == a2 && t[middle..top] == a1 && t[top..] == s[top..];
  }

  method MoveBottom<T>(argv: array<T>, bottom: nat, middle: nat, top: nat) returns (newTop: nat)
    requires bottom < middle < top <= argv.Length && middle - bottom <= top - middle
    modifies argv
    ensures middle <= newTop < top
    ensures Exchanged(argv[..], bottom, middle, newTop) == Exchanged(old(argv[..]), bottom, middle, top)
  {
    ghost var s := argv[..];
    var len := middle - bottom;
    newTop := top - len;
    SwapCells(argv, bottom, newTop, len);
    SwapBottom(s, argv[..], bottom, middle, top, newTop);
  }

  method MoveTop<T>(argv: array<T>, bottom: nat, middle: nat, top: nat) returns (newBottom: nat)
    requires bottom < middle < top <= argv.Length && top - middle <= middle - bottom
    modifies argv
    ensures bottom < newBottom <= middle
    ensures Exchanged(argv[..], newBottom, middle, top) == Exchanged(old(argv[..]), bottom, middle, top)
  {
    var len := top - middle;
    SwapTop(argv[..], bottom, middle, top);
    SwapCells(argv, bottom, middle, len);
    newBottom := bottom + len;
  }

  /** The loop of exchange. */
  method Rotate<T>(argv: array<T>, first: nat, last: nat, optind: nat)
    requires first <= last <= optind <= argv.Length
    modifies argv
    ensures argv[..] == Exchanged(old(argv[..]), first, last, optind)
  {
    var bottom: nat, middle: nat, top: nat := first, last, optind;
    ghost var goal := Exchanged(argv[..], bottom, middle, top);
    while top > middle && middle > bottom
      invariant bottom <= middle <= top <= argv.Length
      invariant Exchanged(argv[..], bottom, middle, top) == goal
      decreases top - bottom
    {
      if top - middle > middle - bottom {
        top := MoveBottom(argv, bottom, middle, top);
      } else {
        bottom := MoveTop(argv, bottom, middle, top);
      }
    }
    NothingLeft(argv[..], bottom, middle, top);
  }

  lemma NothingLeft<T>(s: seq<T>, bottom: nat, middle: nat, top: nat)
    requires bottom <= middle <= top <= |s| && (middle == bottom || middle == top)
    ensures Exchanged(s, bottom, middle, top) == s
  {
  }

  lemma Blocks<T>(s: seq<T>, bottom: nat, middle: nat, top: nat)
    requires bottom <= middle <= top <= |s|
    ensures var r, split := Exchanged(s, bottom, middle, top), bottom + (top - middle);
            r[bottom..split] == s[middle..top] && r[split..top] == s[bottom..middle]
  {
  }

  class Getopt<T> {
    var firstNonopt: nat
    var lastNonopt: nat
    var optind: nat

    constructor (firstNonopt: nat, lastNonopt: nat, optind: nat)
      ensures this.firstNonopt == firstNonopt && this.lastNonopt == lastNonopt && this.optind == optind
    {
      this.firstNonopt, this.lastNonopt, this.optind := firstNonopt, lastNonopt, optind;
    }

    /** exchange: the arguments that are no options move behind the options that
        were read since, each block keeps its order, and the recorded places move
        with them. */
    method Exchange(argv: array<T>)
      requires firstNonopt <= lastNonopt <= optind <= argv.Length
      modifies this`firstNonopt, this`lastNonopt, argv
      ensures argv[..] == Exchanged(old(argv[..]), old(firstNonopt), old(lastNonopt), optind)
      ensures lastNonopt == optind && firstNonopt == old(firstNonopt) + (optind - old(lastNonopt)) <= lastNonopt
      ensures argv[firstNonopt..lastNonopt] == old(argv[firstNonopt..lastNonopt])
      ensures argv[old(firstNonopt)..firstNonopt] == old(argv[lastNonopt..optind])
    {
      Blocks(argv[..], firstNonopt, lastNonopt, optind);
      Rotate(argv, firstNonopt, lastNonopt, optind);
      firstNonopt := firstNonopt + (optind - lastNonopt);
      lastNonopt := optind;
      ghost var r := argv[..];
      assert argv[firstNonopt..lastNonopt] == r[firstNonopt..lastNonopt];
      assert argv[old(firstNonopt)..firstNonopt] == r[old(firstNonopt)..firstNonopt];
    }
  }
}
