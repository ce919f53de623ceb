/** Replacing a file on a legacy display: push under a temporary name, check, rename over the old file. */
module MediaReplace {
  import opened Bytes
  import opened Text
  import opened MediaName

  datatype Failure = Usage | Device | NotThere

  /**
   * How the steps on the display go. A push may not start, or stop after some bytes; one that
   * started reports what it likes. A listing may fail and a removal may do nothing. A rename happens
   * or not; only one that happened is reported good.
   */
  datatype Fate = Fate(
    firstListing: bool,
    pushStarts: bool, pushWrites: nat, pushReports: bool,
    secondListing: bool,
    removes: bool,
    renames: bool, renameReports: bool)

  /** Every step goes through. */
  predicate Smooth(fate: Fate, content: ByteString) {
    && fate.firstListing && fate.pushStarts && |content| <= fate.pushWrites && fate.pushReports
    && fate.secondListing && fate.renames && fate.renameReports
  }

  /** Everything goes through but the push, which stops short and says so, and the temporary is removed again. */
  predicate ShortPush(fate: Fate, content: ByteString) {
    && fate.firstListing && fate.pushStarts && fate.pushWrites < |content| && fate.pushReports
    && fate.secondListing && fate.removes
  }

  /** The display's flat media directory, and every content it has had. */
  class MediaDir {
    var files: map<string, ByteString>
    ghost var history: seq<map<string, ByteString>>

    constructor (files: map<string, ByteString>)
      ensures this.files == files && history == [files]
    {
      this.files := files;
      history := [files];
    }

    method Update(next: map<string, ByteString>)
      modifies this
      ensures files == next && history == old(history) + [next]
    {
      files := next;
      history := history + [next];
    }
  }

  /** Only the file `temporary` differs. */
  predicate OnlyTemporary(before: map<string, ByteString>, now: map<string, ByteString>, temporary: string) {
    now - {temporary} == before - {temporary}
  }

  /** The file under the name is whole, the old one or the new one; nothing but it and the temporary changed. */
  predicate Whole(before: map<string, ByteString>, now: map<string, ByteString>, name: string, temporary: string, content: ByteString)
  {
    || OnlyTemporary(before, now, temporary)
    || (OnlyTemporary(before[name := content], now, temporary))
  }

  ghost predicate AllWhole(
      before: map<string, ByteString>, past: seq<map<string, ByteString>>, history: seq<map<string, ByteString>>,
      name: string, temporary: string, content: ByteString)
  {
    && past <= history
    && forall i :: |past| <= i < |history| ==> Whole(before, history[i], name, temporary, content)
  }

  /** The directory once `writes` bytes of the file, or all of it, have arrived under the name. */
  function Received(files: map<string, ByteString>, remote: string, content: ByteString, writes: nat): map<string, ByteString> {
    files[remote := content[..if writes < |content| then writes else |content|]]
  }

  lemma NameNotTemporary(name: string, pid: nat)
    ensures TemporaryName(name, pid) != name
  {
  }

  /** What wholeness says about each file. */
  lemma WholeMeans(
      before: map<string, ByteString>, now: map<string, ByteString>, name: string, temporary: string, content: ByteString)
    requires Whole(before, now, name, temporary, content) && name in before && name != temporary
    ensures name in now && (now[name] == before[name] || now[name] == content)
    ensures forall other :: other != name && other != temporary ==>
      (other in now <==> other in before) && (other in now ==> now[other] == before[other])
  {
    assert name in now - {temporary};
    forall other | other != name && other != temporary
      ensures (other in now <==> other in before) && (other in now ==> now[other] == before[other])
    {
      assert other in now <==> other in now - {temporary};
    }
  }

  /** Renaming the whole temporary over the old file puts the new file in place. */
  lemma RenamedWhole(before: map<string, ByteString>, name: string, temporary: string, content: ByteString)
    requires name != temporary
    ensures var staged := before[temporary := content];
            var renamed := (staged - {temporary})[name := staged[temporary]];
            renamed == (before - {temporary})[name := content] && Whole(before, renamed, name, temporary, content)
  {
  }

  class Adb {
    const dir: MediaDir

    constructor (dir: MediaDir)
      ensures this.dir == dir
    {
      this.dir := dir;
    }

    /** Copies the file byte after byte, as far as it gets. */
    method Push(content: ByteString, remote: string, starts: bool, writes: nat, reports: bool) returns (ok: bool)
      modifies dir
      ensures ok <==> IsSafeName(remote) && starts && reports
      ensures dir.files == if IsSafeName(remote) && starts then Received(old(dir.files), remote, content, writes) else old(dir.files)
      ensures old(dir.history) <= dir.history
      ensures forall i :: |old(dir.history)| <= i < |dir.history| ==> OnlyTemporary(old(dir.files), dir.history[i], remote)
    {
      if !IsSafeName(remote) {
        return false;
      }
      if starts {
        var written := 0;
        dir.Update(dir.files[remote := []]);
        assert content[..0] == [];
        while written < writes && written < |content|
          invariant written <= writes && written <= |content|
          invariant dir.files == old(dir.files)[remote := content[..written]]
          invariant old(dir.history) <= dir.history
          invariant forall i :: |old(dir.history)| <= i < |dir.history| ==> OnlyTemporary(old(dir.files), dir.history[i], remote)
        {
          assert content[..written] + [content[written]] == content[..written + 1];
          dir.Update(dir.files[remote := dir.files[remote] + [content[written]]]);
          written := written + 1;
        }
        assert written == if writes < |content| then writes else |content|;
      }
      return starts && reports;
    }

    /** Renames over whatever is there. The report, when good, is true. */
    method Rename(source: string, target: string, happens: bool, reports: bool) returns (ok: bool)
      modifies dir
      ensures var renamed := IsSafeName(source) && IsSafeName(target) && source in old(dir.files) && happens;
        && (ok <==> renamed && reports)
        && dir.files == (if renamed then (old(dir.files) - {source})[target := old(dir.files)[source]] else old(dir.files))
        && dir.history == old(dir.history) + if renamed then [dir.files] else []
    {
      if !IsSafeName(source) || !IsSafeName(target) || source !in dir.files || !happens {
        return false;
      }
      dir.Update((dir.files - {source})[target := dir.files[source]]);
      return reports;
    }

    method Remove(remote: string, happens: bool)
      modifies dir
      ensures var removed := IsSafeName(remote) && happens;
        && dir.files == (if removed then old(dir.files) - {remote} else old(dir.files))
        && dir.history == old(dir.history) + if removed then [dir.files] else []
    {
      if IsSafeName(remote) && happens {
        dir.Update(dir.files - {remote});
      }
    }

    /**
     * `media replace`. At every step the file under the name is the complete old file or the
     * complete new one, and no other file but the temporary changes. Success means the new file is
     * in place and the temporary gone; it comes exactly when every step goes through.
     */
    method Replace(
        name: string, content: ByteString, sourceStem: string, sourceExtension: string, kind: Kind, passthrough: bool,
        pid: nat, fate: Fate)
      returns (result: Result<(), Failure>)
      requires pid < 0x1_0000_0000
      modifies dir
      ensures var temporary := TemporaryName(name, pid);
        && AllWhole(old(dir.files), old(dir.history), dir.history, name, temporary, content)
        && Whole(old(dir.files), dir.files, name, temporary, content)
        && (result.Ok? ==> dir.files == (old(dir.files) - {temporary})[name := content])
        && (result.Ok? <==> result != Err(Usage) && name in old(dir.files) && Smooth(fate, content))
        && (result == Err(NotThere) <==> result != Err(Usage) && name !in old(dir.files) && fate.firstListing)
        && (result == Err(Usage) <==>
              !IsSafeName(name) || DeriveName(sourceStem, sourceExtension, Some(name), Some(kind), passthrough).0 != name)
        && (result == Err(Usage) || result == Err(NotThere) ==> dir.files == old(dir.files))
        && (result == Err(Device) && ShortPush(fate, content) ==> dir.files == old(dir.files) - {temporary})
    {
      hide IsSafeName, Decimal;
      ghost var before := dir.files;
      NameNotTemporary(name, pid);
      if !IsSafeName(name) {
        return Err(Usage);
      }
      var (planName, _) := DeriveName(sourceStem, sourceExtension, Some(name), Some(kind), passthrough);
      if planName != name {
        return Err(Usage);
      }
      if !fate.firstListing {
        return Err(Device);
      }
      if name !in dir.files {
        return Err(NotThere);
      }
      var temporary := TemporaryName(name, pid);
      DerivedNamesSafe(sourceStem, sourceExtension, Some(name), Some(kind), passthrough, pid);
      var pushed := Push(content, temporary, fate.pushStarts, fate.pushWrites, fate.pushReports);
      assert pushed ==> dir.files == Received(before, temporary, content, fate.pushWrites);
      if !pushed || !fate.secondListing {
        return Err(Device);
      }
      // A prefix as long as the file is the file.
      if |dir.files[temporary]| != |content| {
        Remove(temporary, fate.removes);
        return Err(Device);
      }
      assert content[..|content|] == content;
      assert dir.files == before[temporary := content];
      RenamedWhole(before, name, temporary, content);
      var renamed := Rename(temporary, name, fate.renames, fate.renameReports);
      if !renamed {
        return Err(Device);
      }
      return Ok(());
    }
  }
}
