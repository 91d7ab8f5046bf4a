// File descriptors: each has its own offset, which every read and write moves on.
module Vfs {
  import opened Bits
  import opened FatContent
  import opened FatFile
  import opened FatWrite
  import opened FatTree
  import opened FatSystem

  const MAX_FDS: nat := 64

  datatype Fd = Unused | Used(node: nat, offset: nat)

  class Descriptors {
    const fs: FileSystem
    var fds: seq<Fd>

    constructor (system: FileSystem)
      ensures fs == system && fds == seq(64, _ => Unused)
    {
      fs, fds := system, seq(MAX_FDS, _ => Unused);
    }

    // fd is open on a file that has not been unlinked.
    ghost predicate OnFile(fd: int)
      reads this, fs
    {
      0 <= fd < |fds| && fds[fd].Used? && OpenFile(fs.t, fs.nodes, fds[fd].node)
    }

    // The bytes of the file behind fd.
    ghost function BytesOf(fd: int): seq<byte>
      requires OnFile(fd)
      reads this, fs
    {
      fs.t.body[fs.nodes[fds[fd].node].first].bytes
    }

    // vfs_alloc_fd: the lowest free descriptor, at offset 0.
    method Alloc(node: nat) returns (fd: int)
      modifies this
      ensures -1 <= fd < |fds| == |old(fds)|
      ensures fd == -1 ==> fds == old(fds) && forall i :: 0 <= i < |fds| ==> fds[i].Used?
      ensures fd >= 0 ==> old(fds)[fd] == Unused && fds == old(fds)[fd := Used(node, 0)]
      ensures fd >= 0 ==> forall i :: 0 <= i < fd ==> old(fds)[i].Used?
    {
      fd := -1;
      for i := 0 to |fds|
        invariant fd == -1 && fds == old(fds) && forall j :: 0 <= j < i ==> fds[j].Used?
      {
        if fds[i].Unused? { fd := i; break; }
      }
      if fd == -1 { return; }
      fds := fds[fd := Used(node, 0)];
    }

    // vfs_read on a file: the next bytes, and the offset moves past them.
    method Read(fd: int, buffer: array<byte>, size: nat) returns (n: int)
      requires fs.Valid() && OnFile(fd) && size <= buffer.Length
      modifies this, buffer
      ensures fs.Valid() && OnFile(fd) && BytesOf(fd) == old(BytesOf(fd))
      ensures var w := Window(BytesOf(fd), old(fds[fd].offset), size);
              && n == |w| && |w| <= buffer.Length && buffer[..] == Overwrite(old(buffer[..]), 0, w)
              && fds == old(fds)[fd := Used(old(fds[fd].node), old(fds[fd].offset) + n)]
    {
      hide Shape, Stored, NodesOk, Window, Overwrite;
      var f := fds[fd];
      n := fs.Read(f.node, f.offset, size, buffer);
      if n > 0 { fds := fds[fd := Used(f.node, f.offset + n)]; }
    }

    // vfs_write on a file: what was written follows what was written before.
    method Write(fd: int, data: seq<byte>) returns (n: int)
      requires fs.Valid() && OnFile(fd) && fds[fd].offset + |data| < 0x1_0000_0000
      modifies this, fs, fs.v, fs.v.disk
      ensures fs.Valid() && OnFile(fd)
      ensures data == [] ==> n == -1 && fds == old(fds) && BytesOf(fd) == old(BytesOf(fd))
      ensures data != [] ==>
                && 0 <= n <= |data| && BytesOf(fd) == Written(old(BytesOf(fd)), old(fds[fd].offset), data[..n])
                && fds == old(fds)[fd := Used(old(fds[fd].node), old(fds[fd].offset) + n)]
    {
      hide Shape, Stored, NodesOk, Written, MapAt;
      var f := fds[fd];
      n := fs.Write(f.node, f.offset, data);
      if n > 0 { fds := fds[fd := Used(f.node, f.offset + n)]; }
    }

    // A client that reads piece after piece gets the file as if it had asked for everything at once.
    method ReadPieces(fd: int, sizes: seq<nat>) returns (out: seq<byte>)
      requires fs.Valid() && OnFile(fd)
      modifies this
      ensures fs.Valid() && OnFile(fd) && BytesOf(fd) == old(BytesOf(fd))
      ensures out == Window(BytesOf(fd), old(fds[fd].offset), Sum(sizes))
    {
      hide Shape, Stored, NodesOk, Window, Overwrite, Sum;
      ghost var b, start := BytesOf(fd), fds[fd].offset;
      out := [];
      var i := 0;
      WindowNone(b, start);
      SumNone(sizes);
      while i < |sizes|
        invariant 0 <= i <= |sizes| && fs.Valid() && OnFile(fd) && BytesOf(fd) == b
        invariant out == Window(b, start, Sum(sizes[..i])) && fds[fd].offset == start + |out|
      {
        var buffer := new byte[sizes[i]];
        ghost var blank := buffer[..];
        var n := Read(fd, buffer, sizes[i]);
        WindowThen(b, start, Sum(sizes[..i]), sizes[i]);
        SumNext(sizes, i);
        Copied(blank, Window(b, start + |out|, sizes[i]), sizes[i]);
        out := out + buffer[..n];
        i := i + 1;
      }
      assert sizes[..i] == sizes;
    }
  }

  function Sum(s: seq<nat>): nat { if s == [] then 0 else Sum(s[..|s| - 1]) + s[|s| - 1] }

  lemma SumNone(s: seq<nat>)
    ensures Sum(s[..0]) == 0
  {
  }

  lemma SumNext(s: seq<nat>, i: nat)
    requires i < |s|
    ensures Sum(s[..i + 1]) == Sum(s[..i]) + s[i]
  {
    assert s[..i + 1][..i] == s[..i];
  }

  lemma WindowNone(b: seq<byte>, o: nat)
    ensures Window(b, o, 0) == []
  {
  }

  // One request for n + m bytes gives what a request for n and then one for m give together.
  lemma WindowThen(b: seq<byte>, o: nat, n: nat, m: nat)
    ensures Window(b, o, n) + Window(b, o + |Window(b, o, n)|, m) == Window(b, o, n + m)
  {
  }

  lemma Copied(a: seq<byte>, w: seq<byte>, n: nat)
    requires |w| <= n == |a|
    ensures Overwrite(a, 0, w)[..|w|] == w
  {
  }
}
