/**
 C strings as sequences of non-NUL characters: the end of the sequence stands for the
 terminating NUL. The order is the one strcmp and _inode_compare use.
 */
module Strings {

  /** a comes strictly before b in dictionary order. */
  predicate Lt(a: string, b: string) {
    b != "" && (a == "" || a[0] < b[0] || (a[0] == b[0] && Lt(a[1..], b[1..])))
  }

  lemma {:induction false} LtIrreflexive(a: string)
    ensures !Lt(a, a)
  {
    if a != "" {
      LtIrreflexive(a[1..]);
    }
  }

  lemma {:induction false} LtTransitive(a: string, b: string, c: string)
    requires Lt(a, b) && Lt(b, c)
    ensures Lt(a, c)
  {
    if a != "" && a[0] == b[0] && b[0] == c[0] {
      LtTransitive(a[1..], b[1..], c[1..]);
    }
  }

  lemma {:induction false} LtTotal(a: string, b: string)
    ensures a == b || Lt(a, b) || Lt(b, a)
  {
    if a != "" && b != "" && a[0] == b[0] {
      LtTotal(a[1..], b[1..]);
      assert a == [a[0]] + a[1..] && b == [b[0]] + b[1..];
    }
  }

  /** Lt is a strict total order, in the form the proofs about sorted lists use. */
  lemma LtIsStrictTotalOrder()
    ensures forall a: string :: !Lt(a, a)
    ensures forall a: string, b: string, c: string :: Lt(a, b) && Lt(b, c) ==> Lt(a, c)
    ensures forall a: string, b: string :: a == b || Lt(a, b) || Lt(b, a)
  {
    forall a: string ensures !Lt(a, a) {
      LtIrreflexive(a);
    }
    forall a: string, b: string, c: string | Lt(a, b) && Lt(b, c) ensures Lt(a, c) {
      LtTransitive(a, b, c);
    }
    forall a: string, b: string ensures a == b || Lt(a, b) || Lt(b, a) {
      LtTotal(a, b);
    }
  }
}

/**
 Path names of the pseudo-filesystem: how a C path string is cut into segments and how one
 segment is compared with a node name (fs_inode.c, fs_inodereserve.c).
 */
module PathNames {
  import opened Strings

  /** The first segment of a name: what inode_namelen measures and inode_namecpy copies. */
  function Segment(name: string): (s: string)
    ensures '/' !in s
    ensures s <= name
  {
    if name == "" || name[0] == '/' then "" else [name[0]] + Segment(name[1..])
  }

  /** What follows the first segment and its separator (inode_nextname). */
  function NextName(name: string): (r: string)
    ensures name != "" ==> |r| < |name|
    ensures name == "" ==> r == ""
  {
    if name == "" then ""
    else if name[0] == '/' then name[1..]
    else NextName(name[1..])
  }

  /** A name is its first segment, then nothing, or a separator and the next name. */
  lemma {:induction false} SegmentSplit(name: string)
    ensures name == Segment(name) + (if |Segment(name)| == |name| then "" else "/" + NextName(name))
    ensures |Segment(name)| == |name| ==> NextName(name) == ""
  {
    if name != "" && name[0] != '/' {
      SegmentSplit(name[1..]);
      assert name == [name[0]] + name[1..];
    }
  }

  /** The character-by-character scan of _inode_compare: a path name against a node name. */
  function Compare(fname: string, nname: string): int {
    if nname == "" then
      if fname == "" || fname[0] == '/' then 0 else 1
    else if fname == "" || fname[0] == '/' then -1
    else if fname[0] > nname[0] then 1
    else if fname[0] < nname[0] then -1
    else Compare(fname[1..], nname[1..])
  }

  /** The scan orders the first segment of the path name against the whole node name. */
  lemma {:induction false} CompareOrdersSegments(fname: string, nname: string)
    ensures Compare(fname, nname) == 0 <==> Segment(fname) == nname
    ensures Compare(fname, nname) < 0 <==> Lt(Segment(fname), nname)
    ensures Compare(fname, nname) > 0 <==> Lt(nname, Segment(fname))
  {
    if nname == "" || fname == "" || fname[0] == '/' || fname[0] != nname[0] {
    } else {
      CompareOrdersSegments(fname[1..], nname[1..]);
      assert Segment(fname)[1..] == Segment(fname[1..]);
      assert nname == [nname[0]] + nname[1..];
    }
  }
}
