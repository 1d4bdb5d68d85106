/** The catalog engine: the SkyCatalog object with its database root, its
    language and its two independent cursors, one over object records and
    one over constellation directories. */
module Catalog {
  import opened Common
  import opened Text
  import opened SkyTypes
  import opened Storage
  import opened Paths
  import opened Records
  import opened Cursor

  class SkyCatalog {
    /** The mounted medium; the engine only reads it. */
    const fs: FileSystem
    /** _dbDirectory: None until initDatabase accepts a root. */
    var dbDirectory: Option<string>
    /** _language */
    var language: SkyTranslate
    /** _currentObjetListType: the category of the open object list. */
    var currentObjectListType: DatabaseObjectType
    /** _currentObjectDir, _currentObjectFile, _fileObjectIndex */
    const objects: DirCursor
    /** _currentConstDir, _currentConstFile, _fileConstIndex */
    const constellations: DirCursor

    ghost predicate Valid()
      reads this, objects, constellations
    {
      && objects != constellations
      && objects.Valid() && constellations.Valid()
      // a list can only have been opened once a root was stored
      && (dbDirectory.None? ==> objects.State() == Closed && constellations.State() == Closed)
    }

    /** The initial values of the private state. */
    constructor (medium: FileSystem)
      ensures fs == medium && dbDirectory.None? && language == English
      ensures currentObjectListType == SkyObjectNone
      ensures objects.State() == Closed && constellations.State() == Closed
      ensures fresh(objects) && fresh(constellations) && Valid()
    {
      fs := medium;
      dbDirectory := None;
      language := English;
      currentObjectListType := SkyObjectNone;
      objects := new DirCursor();
      constellations := new DirCursor();
    }

    /** setLanguage assigns the language and nothing else. */
    method SetLanguage(lang: SkyTranslate)
      modifies this`language
      ensures language == lang
    {
      language := lang;
    }

    /** initDatabase: the root is accepted when the medium mounted and its
        star count file opens and does not read as -1. A refused root leaves
        the stored one as it was. */
    method InitDatabase(mounted: bool, directory: string) returns (ok: bool)
      requires Valid()
      modifies this`dbDirectory
      ensures Valid()
      ensures ok == (mounted && CountValue(fs, directory, "star.cnt") != -1)
      ensures dbDirectory == if ok then Some(directory) else old(dbDirectory)
    {
      if !mounted {
        return false;
      }
      var count := CountFile(fs, directory, "star.cnt");
      if count == -1 {
        return false;
      }
      dbDirectory := Some(directory);
      return true;
    }

    /** databaseDescription: each category counted from its own file. */
    method DatabaseDescription() returns (d: SkyDbDescr)
      requires dbDirectory.Some?
      ensures d.starCount == CountValue(fs, dbDirectory.value, "star.cnt")
      ensures d.messierCount == CountValue(fs, dbDirectory.value, "messier.cnt")
      ensures d.ngcCount == CountValue(fs, dbDirectory.value, "ngc.cnt")
      ensures d.icCount == CountValue(fs, dbDirectory.value, "ic.cnt")
    {
      var root := dbDirectory.value;
      var starCount := CountFile(fs, root, "star.cnt");
      var messierCount := CountFile(fs, root, "messier.cnt");
      var ngcCount := CountFile(fs, root, "ngc.cnt");
      var icCount := CountFile(fs, root, "ic.cnt");
      d := SkyDbDescr(starCount, messierCount, ngcCount, icCount);
    }

    /** object(consAbrv, objIndex, objType): the record file is opened and
        parsed; a missing file gives the cleared record. */
    method Object(consAbrv: Option<string>, objIndex: int, objType: DatabaseObjectType) returns (obj: SkyObject)
      requires dbDirectory.Some? && 0 <= objIndex < 1000000
      ensures obj == LookupObject(fs, dbDirectory.value, consAbrv, objIndex, objType)
      ensures Open(fs, RecordPath(dbDirectory.value, consAbrv, objIndex, objType)).None? ==> obj == EmptyObject()
      ensures Open(fs, RecordPath(dbDirectory.value, consAbrv, objIndex, objType)).Some? ==> obj.index == objIndex
    {
      var fileName := RecordFileName(objIndex);
      var objectType := TypeDirectory(objType);
      var path;
      if consAbrv.Some? {
        var constDir := NewPathByAppendingPaths("const", consAbrv, None, None);
        path := NewPathByAppendingPaths(dbDirectory.value, Some(constDir), objectType, Some(fileName));
      } else {
        path := NewPathByAppendingPaths(dbDirectory.value, objectType, Some(fileName), None);
      }
      assert path == RecordPath(dbDirectory.value, consAbrv, objIndex, objType);
      var objectFile := Open(fs, path);
      var after;
      obj, after := ReadObject(objectFile, objIndex, objType);
    }

    // ----- object list -----

    /** openObjectList: refused without a root; otherwise the category is
        recorded, the index reset and the category directory opened. */
    method OpenObjectList(consAbrv: Option<string>, objectType: DatabaseObjectType) returns (ok: bool)
      requires Valid()
      modifies this`currentObjectListType, objects
      ensures Valid()
      ensures dbDirectory.None? ==>
        && !ok && currentObjectListType == old(currentObjectListType)
        && objects.State() == old(objects.State())
      ensures dbDirectory.Some? ==>
        && currentObjectListType == objectType
        && objects.State() == OpenState(old(objects.State()), OpenDir(fs, ObjectDirPath(dbDirectory.value, consAbrv, objectType)))
        && ok == OpenDir(fs, ObjectDirPath(dbDirectory.value, consAbrv, objectType)).Some?
    {
      if dbDirectory.None? {
        return false;
      }
      currentObjectListType := objectType;
      var objectDir := TypeDirectory(objectType);
      var path;
      if consAbrv.Some? {
        path := NewPathByAppendingPaths(dbDirectory.value, Some("const"), consAbrv, objectDir);
      } else {
        path := NewPathByAppendingPaths(dbDirectory.value, objectDir, None, None);
      }
      ok := objects.Open(OpenDir(fs, path));
    }

    method GotoNextObjectInList() returns (res: bool)
      requires Valid()
      modifies objects
      ensures Valid()
      ensures (objects.State(), res) == NextState(old(objects.State()))
    {
      res := objects.Next();
    }

    method GotoPreviousObjectInList() returns (res: bool)
      requires Valid()
      modifies objects
      ensures Valid()
      ensures (objects.State(), res) == PreviousState(old(objects.State()))
    {
      res := objects.Previous();
    }

    /** currentObjectInList: with no current file the caller's record is
        cleared; a current file that passes the name test is parsed, from
        where its reading stopped, under the identifier its name gives; any
        other current file leaves the caller's record as it was. */
    method CurrentObjectInList(prior: SkyObject) returns (res: bool, obj: SkyObject)
      requires Valid()
      requires objects.current.Some? ==> |objects.current.value.name| >= 4
      modifies objects`current
      ensures Valid()
      ensures old(objects.current).None? ==> !res && obj == EmptyObject() && objects.current.None?
      ensures old(objects.current).Some? ==>
        var h := old(objects.current).value;
        var stem := h.name[..|h.name| - 4];
        && res == IsRecordEntry(h.name)
        && objects.current.Some?
        && (res ==>
              && objects.current.value.name == stem
              && (obj, objects.current.value.unread) == ParseRecord(h.unread, EntryId(h.name), currentObjectListType))
        && (!res ==>
              && obj == prior
              && objects.current.value == h.(name := stem + LowerAll(h.name[|h.name| - 4..])))
    {
      res := false;
      obj := prior;
      if objects.current.Some? {
        var file := objects.current.value;
        var name := file.name;
        var extIdx := |name| - 4;
        // strlwr works on the file's own name buffer
        var lowered := name[..extIdx] + LowerAll(name[extIdx..]);
        assert lowered[extIdx..] == LowerAll(name[extIdx..]);
        if IsRecordEntry(name) {
          // the extension is cut off in that same buffer
          var after;
          obj, after := ReadObject(Some(file.unread), EntryId(name), currentObjectListType);
          objects.current := Some(file.(name := lowered[..extIdx], unread := after.value));
          res := true;
        } else {
          objects.current := Some(file.(name := lowered));
        }
      } else {
        obj := EmptyObject();
      }
    }

    /** closeObjectList: index 0, no category, handles closed. */
    method CloseObjectList()
      requires Valid()
      modifies this`currentObjectListType, objects
      ensures Valid()
      ensures objects.State() == CloseState(old(objects.State()))
      ensures currentObjectListType == SkyObjectNone
    {
      objects.Close();
      currentObjectListType := SkyObjectNone;
    }

    // ----- constellations -----

    /** The translated name of a constellation, or its abbreviation. */
    method TranslatedName(abrv: string) returns (fullName: string)
      requires dbDirectory.Some?
      ensures fullName == ConstRecord(fs, dbDirectory.value, language, abrv).fullName
    {
      var tslPath := NewPathByAppendingPaths(dbDirectory.value, Some("const"), Some(abrv), Some(TranslationFile(language)));
      var tslFile := Open(fs, tslPath);
      if tslFile.Some? {
        var rest;
        fullName, rest := ReadLine(tslFile.value, FullNameSize);
      } else {
        fullName := abrv;
      }
    }

    /** constellation(consAbrv) */
    method Constellation(consAbrv: string) returns (record: SkyConst)
      requires dbDirectory.Some? && |consAbrv| < AbrvSize
      ensures record == ConstRecord(fs, dbDirectory.value, language, consAbrv)
      ensures record.abrv == consAbrv && |record.fullName| < FullNameSize
    {
      var fullName := TranslatedName(consAbrv);
      record := SkyConst(consAbrv, fullName);
    }

    method OpenConstellationList() returns (ok: bool)
      requires Valid()
      modifies constellations
      ensures Valid()
      ensures dbDirectory.None? ==> !ok && constellations.State() == old(constellations.State())
      ensures dbDirectory.Some? ==>
        && constellations.State() == OpenState(old(constellations.State()), OpenDir(fs, ConstDirPath(dbDirectory.value)))
        && ok == OpenDir(fs, ConstDirPath(dbDirectory.value)).Some?
    {
      if dbDirectory.None? {
        return false;
      }
      var path := NewPathByAppendingPaths(dbDirectory.value, Some("const"), None, None);
      ok := constellations.Open(OpenDir(fs, path));
    }

    method GotoNextConstellationInList() returns (res: bool)
      requires Valid()
      modifies constellations
      ensures Valid()
      ensures (constellations.State(), res) == NextState(old(constellations.State()))
    {
      res := constellations.Next();
    }

    method GotoPreviousConstellationInList() returns (res: bool)
      requires Valid()
      modifies constellations
      ensures Valid()
      ensures (constellations.State(), res) == PreviousState(old(constellations.State()))
    {
      res := constellations.Previous();
    }

    /** currentConstellationInList: the current directory's name and its
        translation, the same record `constellation` gives for that name;
        a cleared record without a current entry. It reports false in every
        case. */
    method CurrentConstellationInList() returns (res: bool, record: SkyConst)
      requires Valid()
      requires constellations.current.Some? ==> |constellations.current.value.name| < AbrvSize
      ensures !res
      ensures constellations.current.None? ==> record == EmptyConst()
      ensures constellations.current.Some? ==>
        && dbDirectory.Some?
        && record == ConstRecord(fs, dbDirectory.value, language, constellations.current.value.name)
    {
      res := false;
      if constellations.current.Some? {
        var abrv := constellations.current.value.name;
        var fullName := TranslatedName(abrv);
        record := SkyConst(abrv, fullName);
      } else {
        record := EmptyConst();
      }
    }

    method CloseConstellationList()
      requires Valid()
      modifies constellations
      ensures Valid()
      ensures constellations.State() == CloseState(old(constellations.State()))
    {
      constellations.Close();
    }
  }

  /** The bytes a listed record entry hands out are those of the record
      file `object` opens for its identifier. */
  lemma ListedEntryBytes(fs: FileSystem, root: string, abrv: Option<string>, t: DatabaseObjectType,
                         id: int, entries: seq<Handle>, k: nat)
    requires 0 <= id < 1000000
    requires OpenDir(fs, ObjectDirPath(root, abrv, t)) == Some(entries)
    requires k < |entries| && LowerAll(entries[k].name) == RecordFileName(id)
    requires entries[k].name == RecordFileName(id) || CaseInsensitive(fs)
    requires RecordPath(root, abrv, id, t) in fs
    ensures entries[k].unread == Contents(fs, RecordPath(root, abrv, id, t))
  {
    var name, f := entries[k].name, RecordFileName(id);
    var dir := ObjectDirPath(root, abrv, t);
    assert dir in fs && fs[dir].Directory?;
    var p, q := dir + "/" + f, dir + "/" + name;
    assert entries[k].unread == Contents(fs, q);
    if name != f {
      SpellingInPath(dir, name, id);
      SameSpellingContents(fs, p, q);
    }
  }

  /** The object list and lookup by identifier read the same file: when the
      category directory lists the record file of id, in any case of its
      letters, that entry's bytes, parsed under the identifier its name
      gives, are the record `object` returns for id. A listing in another
      case than the one `object` asks for needs a volume that resolves
      paths case-insensitively, as FAT does. */
  lemma ListedEntryMatchesLookup(fs: FileSystem, root: string, abrv: Option<string>, t: DatabaseObjectType,
                                 id: int, entries: seq<Handle>, k: nat)
    requires 0 <= id < 1000000
    requires OpenDir(fs, ObjectDirPath(root, abrv, t)) == Some(entries)
    requires k < |entries| && LowerAll(entries[k].name) == RecordFileName(id)
    requires entries[k].name == RecordFileName(id) || CaseInsensitive(fs)
    requires RecordPath(root, abrv, id, t) in fs
    ensures IsRecordEntry(entries[k].name) && EntryId(entries[k].name) == id
    ensures ParseRecord(entries[k].unread, EntryId(entries[k].name), t).0 == LookupObject(fs, root, abrv, id, t)
  {
    AnySpellingRoundTrip(entries[k].name, id);
    ListedEntryBytes(fs, root, abrv, t, id, entries, k);
  }
}
