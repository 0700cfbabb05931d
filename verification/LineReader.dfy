/** get_next_line with its list of descriptors, and what interleaved calls return. */
module LineReader {
  import opened LineSpec
  import opened Options

  datatype Node = Node(fd: int, memory: Option<string>)

  /** The static list, and what each descriptor will be read to give. */
  datatype World = World(nodes: seq<Node>, streams: map<int, seq<Read>>)

  function Find(nodes: seq<Node>, fd: int): (i: nat)
    ensures i <= |nodes| && (forall k :: 0 <= k < i ==> nodes[k].fd != fd)
    ensures i < |nodes| ==> nodes[i].fd == fd
  {
    if nodes == [] || nodes[0].fd == fd then 0 else Find(nodes[1..], fd) + 1
  }

  /** ft_get_fd_node: a descriptor not on the list goes to its front. */
  function Fetch(nodes: seq<Node>, fd: int): (fetched: seq<Node>)
    ensures Find(fetched, fd) < |fetched|
  {
    if Find(nodes, fd) < |nodes| then nodes else [Node(fd, None)] + nodes
  }

  /** ft_remove_fd_node. */
  function Remove(nodes: seq<Node>, fd: int): seq<Node> {
    var i := Find(nodes, fd);
    if i < |nodes| then nodes[..i] + nodes[i + 1..] else nodes
  }

  function ScriptOf(streams: map<int, seq<Read>>, fd: int): seq<Read> {
    if fd in streams then streams[fd] else []
  }

  function Consumed(streams: map<int, seq<Read>>, fd: int, rest: seq<Read>): map<int, seq<Read>> {
    if rest == ScriptOf(streams, fd) then streams else streams[fd := rest]
  }

  function GetNext(w: World, fd: int): (World, Option<string>) {
    if fd < 0 then (w, None)
    else
      var nodes := Fetch(w.nodes, fd);
      var i := Find(nodes, fd);
      var (m, rest) := Store(nodes[i].memory, ScriptOf(w.streams, fd));
      var streams := Consumed(w.streams, fd, rest);
      if m.None? then (World(Remove(nodes, fd), streams), None)
      else
        var line := Line(m.value);
        var saved := nodes[i := Node(fd, Leftover(m.value))];
        (World(if line.None? then Remove(saved, fd) else saved, streams), line)
  }

  // ----- one descriptor's share -----

  ghost predicate Valid(w: World) {
    forall i, j :: 0 <= i < j < |w.nodes| ==> w.nodes[i].fd != w.nodes[j].fd
  }

  function MemoryOf(nodes: seq<Node>, fd: int): Option<string> {
    if Find(nodes, fd) < |nodes| then nodes[Find(nodes, fd)].memory else None
  }

  function ViewOf(w: World, fd: int): View {
    View(MemoryOf(w.nodes, fd), ScriptOf(w.streams, fd))
  }

  lemma FindIs(nodes: seq<Node>, fd: int, i: nat)
    requires i <= |nodes| && forall k :: 0 <= k < i ==> nodes[k].fd != fd
    requires i < |nodes| ==> nodes[i].fd == fd
    ensures Find(nodes, fd) == i
  {
  }

  lemma FetchKeeps(w: World, fd: int, other: int)
    requires Valid(w)
    ensures Valid(w.(nodes := Fetch(w.nodes, fd)))
    ensures MemoryOf(Fetch(w.nodes, fd), other) == MemoryOf(w.nodes, other)
  {
    var i := Find(w.nodes, other);
    var fetched := Fetch(w.nodes, fd);
    if fetched != w.nodes {
      FindIs(fetched, other, if other == fd then 0 else i + 1);
    }
  }

  lemma RemoveKeeps(w: World, fd: int, other: int)
    requires Valid(w)
    ensures Valid(w.(nodes := Remove(w.nodes, fd)))
    ensures MemoryOf(Remove(w.nodes, fd), other) == if other == fd then None else MemoryOf(w.nodes, other)
  {
    var at, i := Find(w.nodes, fd), Find(w.nodes, other);
    hide Find, MemoryOf;
    var left := Remove(w.nodes, fd);
    var j := if other == fd then |left| else if at < |w.nodes| && i > at then i - 1 else i;
    FindIs(left, other, j);
    MemoryIs(left, other, j);
    MemoryIs(w.nodes, other, i);
  }

  lemma MemoryIs(nodes: seq<Node>, fd: int, i: nat)
    requires i == Find(nodes, fd)
    ensures MemoryOf(nodes, fd) == if i < |nodes| then nodes[i].memory else None
  {
  }

  lemma SaveKeeps(w: World, fd: int, m: Option<string>, other: int)
    requires Valid(w) && Find(w.nodes, fd) < |w.nodes|
    ensures Valid(w.(nodes := w.nodes[Find(w.nodes, fd) := Node(fd, m)]))
    ensures MemoryOf(w.nodes[Find(w.nodes, fd) := Node(fd, m)], other) == if other == fd then m else MemoryOf(w.nodes, other)
  {
    var at := Find(w.nodes, fd);
    FindIs(w.nodes[at := Node(fd, m)], other, Find(w.nodes, other));
  }

  /** A call acts on its own descriptor as if it were alone, and on no other. */
  lemma CallIsLocal(w: World, fd: int, other: int)
    requires Valid(w) && fd >= 0
    ensures Valid(GetNext(w, fd).0)
    ensures GetNext(w, fd).1 == Next(ViewOf(w, fd)).1
    ensures ViewOf(GetNext(w, fd).0, other) == if other == fd then Next(ViewOf(w, fd)).0 else ViewOf(w, other)
  {
    hide Find, Fetch, Remove, Valid, Store, LineEnd, MemoryOf;
    FetchKeeps(w, fd, other);
    FetchKeeps(w, fd, fd);
    var nodes := Fetch(w.nodes, fd);
    MemoryAt(nodes, fd);
    var w1 := World(nodes, w.streams);
    assert w1 == w.(nodes := nodes);
    var (m, rest) := Store(MemoryOf(w.nodes, fd), ScriptOf(w.streams, fd));
    var streams := Consumed(w.streams, fd, rest);
    if m.None? {
      RemoveKeeps(w1, fd, other);
      ValidIgnoresStreams(Remove(nodes, fd), w.streams, streams);
    } else {
      var i := Find(nodes, fd);
      var saved := nodes[i := Node(fd, Leftover(m.value))];
      SaveKeeps(w1, fd, Leftover(m.value), other);
      ValidIgnoresStreams(saved, w.streams, streams);
      var w2 := World(saved, w.streams);
      assert w2 == w1.(nodes := saved);
      RemoveKeeps(w2, fd, other);
      ValidIgnoresStreams(Remove(saved, fd), w.streams, streams);
    }
  }

  lemma MemoryAt(nodes: seq<Node>, fd: int)
    requires Find(nodes, fd) < |nodes|
    ensures MemoryOf(nodes, fd) == nodes[Find(nodes, fd)].memory
  {
  }

  lemma ValidIgnoresStreams(nodes: seq<Node>, s: map<int, seq<Read>>, t: map<int, seq<Read>>)
    requires Valid(World(nodes, s))
    ensures Valid(World(nodes, t))
  {
  }

  // ----- interleaved calls -----

  /** What the calls for `fd` return, in a run of calls for many descriptors. */
  function Answers(w: World, calls: seq<int>, fd: int): seq<Option<string>>
    decreases |calls|
  {
    if calls == [] then []
    else
      var (w', line) := GetNext(w, calls[0]);
      (if calls[0] == fd then [line] else []) + Answers(w', calls[1..], fd)
  }

  function CallsFor(calls: seq<int>, fd: int): nat {
    if calls == [] then 0 else (if calls[0] == fd then 1 else 0) + CallsFor(calls[1..], fd)
  }

  /** Calls for other descriptors make no difference. */
  lemma {:induction false} AnswersAreLocal(w: World, calls: seq<int>, fd: int)
    requires Valid(w) && fd >= 0
    ensures Answers(w, calls, fd) == Calls(ViewOf(w, fd), CallsFor(calls, fd))
    decreases |calls|
  {
    hide GetNext, Next, ViewOf, Valid;
    if calls != [] {
      if calls[0] < 0 {
        NegativeDescriptor(w, calls[0]);
      } else {
        CallIsLocal(w, calls[0], fd);
      }
      AnswersAreLocal(GetNext(w, calls[0]).0, calls[1..], fd);
    }
  }

  lemma NegativeDescriptor(w: World, fd: int)
    requires fd < 0
    ensures GetNext(w, fd) == (w, None)
  {
  }

  /** Reassembly: however the stream of `fd` is chunked and whatever other calls come between,
      the calls for `fd` return the lines of its stream in order, and then nothing. */
  lemma Reassembly(w: World, calls: seq<int>, fd: int)
    requires Valid(w) && fd >= 0
    requires MemoryOf(w.nodes, fd) == None && Plain(ScriptOf(w.streams, fd))
    requires '\0' !in Stream(ScriptOf(w.streams, fd))
    ensures Answers(w, calls, fd) == Served(Lines(Stream(ScriptOf(w.streams, fd))), CallsFor(calls, fd))
  {
    hide Answers, Calls, Served, Lines, Valid, MemoryOf;
    AnswersAreLocal(w, calls, fd);
    var t := Stream(ScriptOf(w.streams, fd));
    PlainAhead(ScriptOf(w.streams, fd));
    assert "" + t == t;
    CallsReturnLines(ViewOf(w, fd), CallsFor(calls, fd));
  }

  // ----- the program -----

  class GetNextLine {
    var nodes: seq<Node>
    /** What the operating system has in store; a read takes from it. */
    var streams: map<int, seq<Read>>

    constructor (streams: map<int, seq<Read>>)
      ensures State() == World([], streams)
    {
      nodes := [];
      this.streams := streams;
    }

    ghost function State(): World
      reads this
    {
      World(nodes, streams)
    }

    method ReadChunk(fd: int) returns (r: Read)
      modifies this`streams
      ensures var script := old(ScriptOf(streams, fd));
        if script == [] then r == Data("") && streams == old(streams)
        else r == script[0] && streams == old(streams)[fd := script[1..]]
    {
      if fd !in streams || streams[fd] == [] { return Data(""); }
      r := streams[fd][0];
      streams := streams[fd := streams[fd][1..]];
    }

    static method StrJoin(s1: Option<string>, s2: string) returns (joined: string)
      ensures joined == Buffered(s1) + UpToNul(s2)
    {
      joined := "";
      if s1.Some? {
        for i := 0 to |s1.value|
          invariant joined == s1.value[..i]
        {
          joined := joined + [s1.value[i]];
        }
      }
      assert joined == Buffered(s1);
      var i := 0;
      while i < |s2| && s2[i] != '\0'
        invariant i <= |s2| && Buffered(s1) + UpToNul(s2) == joined + UpToNul(s2[i..])
      {
        JoinNext(joined, s2[i..]);
        joined := joined + [s2[i]];
        i := i + 1;
      }
    }

    /** ft_store_chunks. */
    method StoreChunks(fd: int, memory: Option<string>) returns (stored: Option<string>)
      modifies this`streams
      ensures var (m, rest) := Store(memory, old(ScriptOf(streams, fd)));
        stored == m && streams == Consumed(old(streams), fd, rest)
    {
      stored := memory;
      ghost var first := streams;
      while LineEnd(Buffered(stored)) == |Buffered(stored)|
        invariant Store(memory, ScriptOf(first, fd)) == Store(stored, ScriptOf(streams, fd))
        invariant streams == Consumed(first, fd, ScriptOf(streams, fd))
        decreases |ScriptOf(streams, fd)|
      {
        NoNewline(Buffered(stored));
        var r := ReadChunk(fd);
        if r == Failure || r.bytes == "" {
          return if r == Failure then None else stored;
        }
        var joined := StrJoin(stored, r.bytes);
        stored := Some(joined);
      }
      NoNewline(Buffered(stored));
    }

    /** ft_get_leftover: walk to the newline and keep what follows it. */
    static method GetLeftover(memory: string) returns (leftover: Option<string>)
      ensures leftover == Leftover(memory)
    {
      var ptr := 0;
      while ptr < |memory| && memory[ptr] != '\n'
        invariant ptr <= |memory| && '\n' !in memory[..ptr]
      {
        ptr := ptr + 1;
      }
      LineEndIs(memory, ptr);
      leftover := if ptr == |memory| then None else Some(memory[ptr + 1..]);
    }

    method GetFdNode(fd: int) returns (i: nat)
      modifies this`nodes
      ensures nodes == Fetch(old(nodes), fd) && i == Find(nodes, fd) < |nodes|
    {
      i := 0;
      while i < |nodes|
        invariant i <= |nodes| && forall k :: 0 <= k < i ==> nodes[k].fd != fd
        invariant nodes == old(nodes)
        decreases |nodes| - i
      {
        if nodes[i].fd == fd {
          FindIs(nodes, fd, i);
          return;
        }
        i := i + 1;
      }
      FindIs(nodes, fd, i);
      nodes := [Node(fd, None)] + nodes;
      i := 0;
    }

    method RemoveFdNode(fd: int)
      modifies this`nodes
      ensures nodes == Remove(old(nodes), fd)
    {
      var i := 0;
      while i < |nodes|
        invariant i <= |nodes| && forall k :: 0 <= k < i ==> nodes[k].fd != fd
        invariant nodes == old(nodes)
        decreases |nodes| - i
      {
        if nodes[i].fd == fd {
          FindIs(nodes, fd, i);
          nodes := nodes[..i] + nodes[i + 1..];
          return;
        }
        i := i + 1;
      }
      FindIs(nodes, fd, i);
    }

    method Get(fd: int) returns (line: Option<string>)
      modifies this
      ensures (State(), line) == GetNext(old(State()), fd)
    {
      hide Find, Fetch, Remove, Store, LineEnd, Consumed, ScriptOf;
      if fd < 0 { return None; }
      var i := GetFdNode(fd);
      var memory := StoreChunks(fd, nodes[i].memory);
      if memory.None? {
        RemoveFdNode(fd);
        return None;
      }
      line := Line(memory.value);
      var leftover := GetLeftover(memory.value);
      nodes := nodes[i := Node(fd, leftover)];
      if line.None? {
        RemoveFdNode(fd);
      }
    }
  }

  lemma JoinNext(joined: string, rest: string)
    requires rest != "" && rest[0] != '\0'
    ensures joined + UpToNul(rest) == (joined + [rest[0]]) + UpToNul(rest[1..])
  {
  }
}
