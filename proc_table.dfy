/**
 * Child discovery: `list_children` scans /proc (src/lib.rs, repeated in
 * src/reaper.rs), and `new_children` compares a scan with the one before.
 * The directory listing and the stat files' contents are inputs here.
 */
module ProcTable {
  import opened RustStr
  import opened Zombie

  /**
   * One item of `read_dir("/proc")`. `Unlisted` is an item the iterator
   * yielded as an error; `Listed` carries the file name and the contents
   * of `<name>/stat`, or None when opening or reading that file failed.
   */
  datatype ProcEntry =
    | Unlisted
    | Listed(name: string, stat: Option<string>)

  /** The pid a /proc entry names, when its name parses as an `i32`. */
  function EntryPid(e: ProcEntry): Option<Pid> {
    if e.Listed? then ParseInt32(e.name) else None
  }

  /** The 4th whitespace-separated field of the stat text, parsed as an `i32`. */
  function EntryParent(e: ProcEntry): Option<Pid> {
    if e.Listed? && e.stat.Some? then
      var fields := SplitWhitespace(e.stat.value);
      if |fields| > 3 then ParseInt32(fields[3]) else None
    else None
  }

  /** The pid an entry contributes to `list_children(parent)`, if any. */
  function ChildOf(e: ProcEntry, parent: Pid): Option<Pid> {
    if EntryPid(e).Some? && EntryParent(e) == Some(parent) then EntryPid(e) else None
  }

  /**
   * `list_children(parent)` over the given listing: the pids of the entries
   * that name a process whose recorded parent is `parent`, in listing order.
   * Every other entry is skipped.
   */
  function ListChildren(parent: Pid, table: seq<ProcEntry>): (r: seq<Pid>)
    ensures |r| <= |table|
    ensures forall p :: p in r <==> exists i :: 0 <= i < |table| && ChildOf(table[i], parent) == Some(p)
  {
    if table == [] then []
    else
      var rest := ListChildren(parent, table[1..]);
      assert forall i :: 1 <= i < |table| ==> table[i] == table[1..][i - 1];
      match ChildOf(table[0], parent)
      case Some(p) => [p] + rest
      case None => rest
  }

  /** Scanning two listings one after the other gives the two results in order. */
  lemma {:induction false} ListChildrenAppend(parent: Pid, a: seq<ProcEntry>, b: seq<ProcEntry>)
    ensures ListChildren(parent, a + b) == ListChildren(parent, a) + ListChildren(parent, b)
  {
    if a == [] {
      assert a + b == b;
    } else {
      assert (a + b)[0] == a[0];
      assert (a + b)[1..] == a[1..] + b;
      ListChildrenAppend(parent, a[1..], b);
    }
  }

  /**
   * A stat line as Linux writes it: single-space-separated fields, the
   * parent pid 4th, and a final newline.
   */
  function StatLine(pid: Pid, comm: string, state: string, ppid: Pid, rest: seq<string>): string {
    JoinSpaced([ShowInt32(pid), comm, state, ShowInt32(ppid)] + rest) + "\n"
  }

  /** Field 4 of a single-space-separated, newline-terminated line of words is its 4th word. */
  lemma FieldFour(name: string, words: seq<string>)
    requires |words| > 3
    requires forall i :: 0 <= i < |words| ==> IsWord(words[i])
    ensures EntryParent(Listed(name, Some(JoinSpaced(words) + "\n"))) == ParseInt32(words[3])
  {
    SplitJoin(words);
    SplitTrailingBlank(JoinSpaced(words), "\n");
  }

  /** Every element of `a + b` is a word when every element of `a` and of `b` is. */
  lemma AllWords(a: seq<string>, b: seq<string>)
    requires forall i :: 0 <= i < |a| ==> IsWord(a[i])
    requires forall i :: 0 <= i < |b| ==> IsWord(b[i])
    ensures forall i :: 0 <= i < |a + b| ==> IsWord((a + b)[i])
  {
    forall i | 0 <= i < |a + b|
      ensures IsWord((a + b)[i])
    {
      if i >= |a| {
        assert (a + b)[i] == b[i - |a|];
      }
    }
  }

  /**
   * An entry `/proc/<pid>` whose stat names `parent` as the parent is found as
   * a child, provided the command name (field 2, in parentheses) holds no
   * whitespace.
   */
  lemma WellFormedEntryIsChild(pid: Pid, comm: string, state: string, parent: Pid, rest: seq<string>)
    requires IsWord(comm) && IsWord(state)
    requires forall i :: 0 <= i < |rest| ==> IsWord(rest[i])
    ensures ChildOf(Listed(ShowInt32(pid), Some(StatLine(pid, comm, state, parent, rest))), parent) == Some(pid)
  {
    var head := [ShowInt32(pid), comm, state, ShowInt32(parent)];
    ShowIsWord(pid);
    ShowIsWord(parent);
    AllWords(head, rest);
    FieldFour(ShowInt32(pid), head + rest);
    assert (head + rest)[3] == ShowInt32(parent);
    ParseShow(pid);
    ParseShow(parent);
  }

  /**
   * The stat line of a process whose command name holds one space, such as
   * `(tmux: server)`: the name spreads over fields 2 and 3.
   */
  function SpacedStatLine(pid: Pid, comm1: string, comm2: string, state: string, ppid: Pid,
                          rest: seq<string>): string {
    JoinSpaced([ShowInt32(pid), comm1, comm2, state, ShowInt32(ppid)] + rest) + "\n"
  }

  /**
   * With a spaced command name the 4th field is the state letter, so the
   * entry is never found as anyone's child.
   */
  lemma SpacedCommandHidesParent(pid: Pid, comm1: string, comm2: string, state: string, parent: Pid,
                                 rest: seq<string>)
    requires IsWord(comm1) && IsWord(comm2) && IsWord(state) && !IsDigit(state[0])
    requires state[0] != '+' && state[0] != '-'
    requires forall i :: 0 <= i < |rest| ==> IsWord(rest[i])
    ensures ChildOf(Listed(ShowInt32(pid), Some(SpacedStatLine(pid, comm1, comm2, state, parent, rest))), parent)
            == None
  {
    var head := [ShowInt32(pid), comm1, comm2, state, ShowInt32(parent)];
    ShowIsWord(pid);
    ShowIsWord(parent);
    AllWords(head, rest);
    FieldFour(ShowInt32(pid), head + rest);
    assert (head + rest)[3] == state;
    assert !AllDigits(state);
  }

  lemma ShowIsWord(n: Int32)
    ensures IsWord(ShowInt32(n))
  {
    var s := ShowInt32(n);
    forall i | 0 <= i < |s| ensures !IsWhitespace(s[i]) {
      if n < 0 {
        assert i == 0 || s[i] == ShowNat(-(n as int))[i - 1];
      }
    }
  }

  /**
   * The pids of `current` that are not in `known`, in the order of
   * `current` (the filter in `new_children`).
   */
  function NewPids(current: seq<Pid>, known: seq<Pid>): (r: seq<Pid>)
    ensures |r| <= |current|
    ensures forall p :: p in r <==> p in current && p !in known
  {
    if current == [] then []
    else
      var rest := NewPids(current[1..], known);
      assert forall p :: p in current <==> p == current[0] || p in current[1..];
      if current[0] in known then rest else [current[0]] + rest
  }

  /** The filter keeps listing order: it distributes over concatenation. */
  lemma {:induction false} NewPidsAppend(a: seq<Pid>, b: seq<Pid>, known: seq<Pid>)
    ensures NewPids(a + b, known) == NewPids(a, known) + NewPids(b, known)
  {
    if a == [] {
      assert a + b == b;
    } else {
      assert (a + b)[0] == a[0];
      assert (a + b)[1..] == a[1..] + b;
      NewPidsAppend(a[1..], b, known);
    }
  }

  /** Against an empty memory every current child is new. */
  lemma {:induction false} NewPidsOfNothing(current: seq<Pid>)
    ensures NewPids(current, []) == current
  {
    if current != [] {
      NewPidsOfNothing(current[1..]);
    }
  }

  /** Rescanning an unchanged listing finds nothing new. */
  lemma {:induction false} NewPidsOfSame(current: seq<Pid>, known: seq<Pid>)
    requires forall p :: p in current ==> p in known
    ensures NewPids(current, known) == []
  {
    if current != [] {
      assert forall p :: p in current[1..] ==> p in current;
      NewPidsOfSame(current[1..], known);
    }
  }
}
