/** poky/scripts/relocate_sdk.py, the functions of the script: they seek, read and write in the open file. */
module ElfRelocator {
  import opened Bytes
  import opened ElfFile
  import opened Lists
  import opened Relocation
  import opened Wrappers

  method ChangeInterpreter(f: OpenFile, h: Header, dlPath: seq<Byte>) returns (status: Status)
    modifies f
    ensures Change(f.data, status) == ElfFile.ChangeInterpreter(old(f.data), h, dlPath)
  {
    hide Row;
    for i := 0 to h.phnum
      invariant f.data == old(f.data)
      invariant FindInterp(f.data, h, 0) == FindInterp(f.data, h, i)
    {
      f.Seek(Row(h.phoff, i, h.phentsize));
      var phHdr := f.ReadNext(h.phentsize);
      var seg := UnpackSegment(h, phHdr);
      if seg.None? {
        return Raised;
      }
      if seg.value.kind == PT_INTERP {
        status := WriteInterpreter(f, seg.value, dlPath);
        return;
      }
    }
    return Good;
  }

  method WriteInterpreter(f: OpenFile, seg: Segment, dlPath: seq<Byte>) returns (status: Status)
    modifies f
    ensures Change(f.data, status) == PatchInterp(old(f.data), seg, dlPath)
  {
    f.Seek(seg.offset);
    var fname := f.ReadNext(11);
    if exists k :: 0 <= k < |LIB_DIRS| && LIB_DIRS[k] <= fname {
      return Good;
    }
    if seg.filesz == 0 {
      return Good;
    }
    if |dlPath| >= seg.filesz {
      return Refused;
    }
    f.Seek(seg.offset);
    f.WriteNext(dlPath + Zeros(seg.filesz - |dlPath|));
    return Good;
  }

  method WritePart(f: OpenFile, prefix: seq<Byte>, off: nat, size: nat) returns (status: Status)
    requires f.pos == off
    modifies f
    ensures Change(f.data, status) == PatchPart(old(f.data), prefix, off, size)
    ensures status.Good? ==> f.pos == off + size
    ensures status.Good? || status.Raised?
  {
    var path := f.ReadNext(size);
    var newPath := Strip(Sub(prefix, path));
    if |newPath| >= size {
      return Raised;
    }
    newPath := newPath + Zeros(size - |newPath|);
    f.Seek(off);
    f.WriteNext(newPath);
    return Good;
  }

  method WriteSlots(f: OpenFile, prefix: seq<Byte>, off: nat, size: nat) returns (status: Status)
    requires f.pos == off
    modifies f
    ensures Change(f.data, status) == PatchSlots(old(f.data), prefix, off, size)
  {
    hide PatchPart;
    var offset := 0;
    while offset + SLOT <= size
      invariant f.pos == off + offset && offset <= size
      invariant PatchSlots(old(f.data), prefix, off, size) == PatchSlots(f.data, prefix, off + offset, size - offset)
      decreases size - offset
    {
      status := WritePart(f, prefix, off + offset, SLOT);
      if !status.Good? {
        return;
      }
      offset := offset + SLOT;
    }
    return Good;
  }

  method ChangeDlSysdirs(f: OpenFile, h: Header, prefix: seq<Byte>) returns (status: Status)
    modifies f
    ensures Change(f.data, status) == ElfFile.ChangeDlSysdirs(old(f.data), h, prefix)
  {
    hide SectionStep, WriteSysdirs, UnpackSection, Read, Row;
    f.Seek(Row(h.shoff, h.shstrndx, h.shentsize));
    var shHdr := f.ReadNext(h.shentsize);
    var strings := UnpackSection(h, shHdr);
    if strings.None? {
      return Raised;
    }
    f.Seek(strings.value.offset);
    var tab := f.ReadNext(strings.value.size);
    var sysdirs: Option<Sysdirs>, sysdirslen: Option<nat> := None, None;
    for i := 0 to h.shnum
      invariant Scan(f.data, sysdirs, sysdirslen, Good) == ScanTo(old(f.data), h, tab, prefix, i)
    {
      var s := Scan(f.data, sysdirs, sysdirslen, Good);
      sysdirs, sysdirslen, status := ChangeSection(f, h, tab, prefix, i, s);
      if !status.Good? {
        ScanStops(old(f.data), h, tab, prefix, i + 1, h.shnum);
        return;
      }
    }
    status := Good;
    if sysdirs.Some? {
      if sysdirslen.None? {
        return Raised;
      }
      WriteLibraryDirs(f, h, prefix, sysdirs.value, sysdirslen.value);
    }
  }

  lemma {:induction false} ScanStops(d: seq<Byte>, h: Header, tab: seq<Byte>, prefix: seq<Byte>, i: nat, n: nat)
    requires i <= n && !ScanTo(d, h, tab, prefix, i).status.Good?
    ensures ScanTo(d, h, tab, prefix, n) == ScanTo(d, h, tab, prefix, i)
    decreases n
  {
    if i < n { ScanStops(d, h, tab, prefix, i, n - 1); }
  }

  /** The body of the loop over the sections; `s` is where the loop stands. */
  method ChangeSection(f: OpenFile, h: Header, tab: seq<Byte>, prefix: seq<Byte>, i: nat, s: Scan)
    returns (sysdirs: Option<Sysdirs>, sysdirslen: Option<nat>, status: Status)
    requires s.data == f.data && s.status.Good?
    modifies f
    ensures Scan(f.data, sysdirs, sysdirslen, status) == SectionStep(s, h, tab, prefix, i)
  {
    hide Row;
    sysdirs, sysdirslen, status := s.sysdirs, s.sysdirslen, Good;
    f.Seek(Row(h.shoff, i, h.shentsize));
    var shHdr := f.ReadNext(h.shentsize);
    var sect := UnpackSection(h, shHdr);
    if sect.None? {
      status := Raised;
      return;
    }
    var name := NameAt(tab, sect.value.name);
    if sect.value.kind == SHT_PROGBITS {
      f.Seek(sect.value.offset);
      if name == SYSDIRS {
        var text := f.ReadNext(sect.value.size);
        sysdirs := Some(Sysdirs(text, sect.value.offset, sect.value.size));
      } else if name == SYSDIRSLEN {
        var text := f.ReadNext(sect.value.size);
        sysdirslen := Some(sect.value.offset);
      } else if name == LDSOCACHE {
        status := WritePart(f, prefix, sect.value.offset, sect.value.size);
      } else if name == GCCRELOCPREFIX {
        status := WriteSlots(f, prefix, sect.value.offset, sect.value.size);
      }
    }
  }

  method WriteLibraryDirs(f: OpenFile, h: Header, prefix: seq<Byte>, s: Sysdirs, lenOff: nat)
    modifies f
    ensures f.data == WriteSysdirs(old(f.data), h, prefix, s, lenOff)
  {
    hide Write, Strings, Lengths, Paths, SubAll, Zeros;
    var sysdirs, sysdirslen := BuildLibraryDirs(prefix, Paths(s.text), if h.wide then 8 else 4);
    sysdirs := sysdirs + Zeros(if |sysdirs| < s.size then s.size - |sysdirs| else 0);
    f.Seek(s.offset);
    f.WriteNext(sysdirs);
    f.Seek(lenOff);
    f.WriteNext(sysdirslen);
  }

  method BuildLibraryDirs(prefix: seq<Byte>, paths: seq<seq<Byte>>, w: nat)
    returns (sysdirs: seq<Byte>, sysdirslen: seq<Byte>)
    ensures sysdirs == Strings(SubAll(prefix, paths)) && sysdirslen == Lengths(SubAll(prefix, paths), w)
  {
    sysdirs, sysdirslen := [], [];
    ghost var done := SubAll(prefix, paths);
    for i := 0 to |paths|
      invariant sysdirs == Strings(done[..i]) && sysdirslen == Lengths(done[..i], w)
    {
      var newPath := Sub(prefix, paths[i]);
      PrefixGrows(done, i);
      StringsGrow(done[..i], newPath);
      LengthsGrow(done[..i], newPath, w);
      hide Strings, Lengths, Sub;
      sysdirs := sysdirs + (newPath + [NUL]);
      sysdirslen := sysdirslen + Pack(|newPath|, w);
    }
    assert done[..|paths|] == done;
  }

  /** One file of the list; false for an error that is reported, and the rest of the file is still done. */
  method Relocate(f: OpenFile, prefix: seq<Byte>, dlPath: seq<Byte>) returns (status: Status)
    modifies f
    ensures Change(f.data, status) == ElfFile.Relocate(old(f.data), prefix, dlPath)
  {
    if |f.data| < 64 {
      return Good;
    }
    f.Seek(0);
    var elfHeader := f.ReadNext(64);
    var h := ParseElfHeader(elfHeader);
    if h.None? {
      return Good;
    }
    status := ChangeInterpreter(f, h.value, dlPath);
    if !status.Raised? {
      var second := ChangeDlSysdirs(f, h.value, prefix);
      if !second.Good? {
        status := second;
      }
    }
  }
}
