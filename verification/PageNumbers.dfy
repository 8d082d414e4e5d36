/** The page number that the heap expects is the one that the Memory process assigns: what
    `get_pages` does to the table of all programs, seen from one of them. */
module PageNumbers {
  import Ram
  import FlatMemory
  import Heap

  ghost function PagesOf(pages: set<Ram.Entry>, pid: int): set<int> {
    set e | e in pages && e.pid == pid :: e.page
  }

  /** The maximum that `proccess_page_max` computes is the largest page of the program, given
      that it has page 0; without it the two differ for a program with no pages. */
  lemma SameMaximum(pages: set<Ram.Entry>, pid: int, max: nat)
    requires Ram.Entry(pid, 0) in pages
    ensures Ram.IsPageMax(pages, pid, max) <==> Heap.IsMax(PagesOf(pages, pid), max)
  {
    assert 0 in PagesOf(pages, pid);
    assert max in PagesOf(pages, pid) <==> Ram.Entry(pid, max) in pages;
    if Heap.IsMax(PagesOf(pages, pid), max) {
      assert forall e :: e in pages && e.pid == pid ==> e.page in PagesOf(pages, pid);
    }
  }

  /** A granted page is the one after the program's last, and the program's only new one:
      just what the heap takes a page request to do. */
  lemma GrantedPageIsNext(m: FlatMemory.Pages, m': FlatMemory.Pages, size: nat, capacity: nat, pid: int, first: nat)
    requires size > 0 && FlatMemory.Sized(m, size) && Ram.Entry(pid, 0) in m
    requires FlatMemory.Next(m, m', size, capacity, FlatMemory.GetPages(pid, 1, first, true))
    ensures Heap.IsMax(PagesOf(m.Keys, pid), first - 1)
    ensures PagesOf(m'.Keys, pid) == PagesOf(m.Keys, pid) + {first}
    ensures forall page :: page in PagesOf(m.Keys, pid) ==> m'[Ram.Entry(pid, page)] == m[Ram.Entry(pid, page)]
    ensures forall other :: other != pid ==> PagesOf(m'.Keys, other) == PagesOf(m.Keys, other)
  {
    SameMaximum(m.Keys, pid, first - 1);
    forall page ensures page in PagesOf(m'.Keys, pid) <==> page in PagesOf(m.Keys, pid) + {first} {
      assert page in PagesOf(m.Keys, pid) <==> Ram.Entry(pid, page) in m;
      assert page in PagesOf(m'.Keys, pid) <==> Ram.Entry(pid, page) in m';
    }
    forall other | other != pid ensures PagesOf(m'.Keys, other) == PagesOf(m.Keys, other) {
      forall page ensures page in PagesOf(m'.Keys, other) <==> page in PagesOf(m.Keys, other) {
        assert page in PagesOf(m.Keys, other) <==> Ram.Entry(other, page) in m;
        assert page in PagesOf(m'.Keys, other) <==> Ram.Entry(other, page) in m';
      }
    }
  }
}
