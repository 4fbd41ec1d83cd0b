/** FileStorage: every saved record is appended, as JSON, to a text file whose
    name is built from the source name, an optional suffix and the record's id.
    The storage directory is modelled as a map from file path to content. */
module Storage {
  import opened Text
  import opened Models

  const DIRECTORY_SEPARATOR := "/"
  const FILE_EXTENSION := ".txt"

  /** What a FileStorage works with besides the files themselves: the storage
      directory, the paths the filesystem refuses to write, and json_encode. */
  datatype Config = Config(
    dirPath: string,
    unwritable: set<string>,
    jsonEncode: seq<(string, string)> -> string)

  /** The name save() gives the file of a record with the given id: the source
      name, "_" and the suffix when params holds one, "_" and the id, ".txt". */
  function FileName(sourceName: string, params: map<string, string>, id: string): string {
    var name := if "suffix" in params then sourceName + "_" + params["suffix"] else sourceName;
    name + "_" + id + FILE_EXTENSION
  }

  /** Within one source name and one set of params, distinct ids never share a file. */
  lemma FileNameInjective(sourceName: string, params: map<string, string>, id1: string, id2: string)
    requires FileName(sourceName, params, id1) == FileName(sourceName, params, id2)
    ensures id1 == id2
  {
    var name := if "suffix" in params then sourceName + "_" + params["suffix"] else sourceName;
    var a, b := FileName(sourceName, params, id1), FileName(sourceName, params, id2);
    assert |id1| == |id2|;
    assert a[|name| + 1..|a| - 4] == id1;
    assert b[|name| + 1..|b| - 4] == id2;
  }

  function TargetPath(c: Config, sourceName: string, params: map<string, string>, id: string): string {
    c.dirPath + FileName(sourceName, params, id)
  }

  /** The content of a file, "" for a file that does not exist. */
  function Content(files: map<string, string>, path: string): string {
    if path in files then files[path] else ""
  }

  /** file_put_contents(path, content, FILE_APPEND) on a writable path. */
  function Appended(files: map<string, string>, path: string, content: string): (r: map<string, string>)
    ensures r.Keys == files.Keys + {path}
    ensures r[path] == Content(files, path) + content
    ensures forall p :: p in files && p != path ==> r[p] == files[p]
  {
    files[path := Content(files, path) + content]
  }

  /** The directory after save() of one record: its JSON appended to its target
      file, or nothing changed when the filesystem refuses that path. */
  function AfterSave(c: Config, files: map<string, string>, f: Fields, sourceName: string, params: map<string, string>): map<string, string>
    requires f.id.Some?
  {
    var path := TargetPath(c, sourceName, params, f.id.value);
    if path in c.unwritable then files else Appended(files, path, c.jsonEncode(ObjectVars(f)))
  }

  predicate AllHaveIds(records: seq<Fields>) {
    forall i :: 0 <= i < |records| ==> records[i].id.Some?
  }

  /** The directory after save() of each record in turn. */
  function AfterSaves(c: Config, files: map<string, string>, records: seq<Fields>, sourceName: string, params: map<string, string>): map<string, string>
    requires AllHaveIds(records)
    decreases |records|
  {
    if records == [] then files
    else AfterSaves(c, AfterSave(c, files, records[0], sourceName, params), records[1..], sourceName, params)
  }

  /** The JSON texts of the records whose target is path, concatenated in order. */
  function JsonFor(c: Config, records: seq<Fields>, sourceName: string, params: map<string, string>, path: string): string
    requires AllHaveIds(records)
    decreases |records|
  {
    if records == [] then ""
    else
      var own := if TargetPath(c, sourceName, params, records[0].id.value) == path then c.jsonEncode(ObjectVars(records[0])) else "";
      own + JsonFor(c, records[1..], sourceName, params, path)
  }

  /** Saving a sequence of records only ever appends: a writable file ends up
      with its old content followed by the JSON of exactly the records that
      target it, in the order they were saved; a refused file keeps its content. */
  lemma {:induction false} AfterSavesContent(c: Config, files: map<string, string>, records: seq<Fields>, sourceName: string, params: map<string, string>, path: string)
    requires AllHaveIds(records)
    ensures path !in c.unwritable ==> Content(AfterSaves(c, files, records, sourceName, params), path) == Content(files, path) + JsonFor(c, records, sourceName, params, path)
    ensures path in c.unwritable ==> Content(AfterSaves(c, files, records, sourceName, params), path) == Content(files, path)
    decreases |records|
  {
    if records != [] {
      var next := AfterSave(c, files, records[0], sourceName, params);
      AfterSavesContent(c, next, records[1..], sourceName, params, path);
      var own := if TargetPath(c, sourceName, params, records[0].id.value) == path then c.jsonEncode(ObjectVars(records[0])) else "";
      AfterSaveContent(c, files, records[0], sourceName, params, path);
      assert JsonFor(c, records, sourceName, params, path) == own + JsonFor(c, records[1..], sourceName, params, path);
      if path !in c.unwritable {
        assert Content(next, path) == Content(files, path) + own;
        assert (Content(files, path) + own) + JsonFor(c, records[1..], sourceName, params, path)
          == Content(files, path) + (own + JsonFor(c, records[1..], sourceName, params, path));
      }
    }
  }

  /** One save appends to its own target file only, and only when that file
      can be written. */
  lemma AfterSaveContent(c: Config, files: map<string, string>, f: Fields, sourceName: string, params: map<string, string>, path: string)
    requires f.id.Some?
    ensures path in c.unwritable ==> Content(AfterSave(c, files, f, sourceName, params), path) == Content(files, path)
    ensures path !in c.unwritable ==>
      Content(AfterSave(c, files, f, sourceName, params), path) ==
        Content(files, path) + (if TargetPath(c, sourceName, params, f.id.value) == path then c.jsonEncode(ObjectVars(f)) else "")
  {
  }

  /** Saving never deletes a file. */
  lemma {:induction false} AfterSavesKeepsFiles(c: Config, files: map<string, string>, records: seq<Fields>, sourceName: string, params: map<string, string>)
    requires AllHaveIds(records)
    ensures files.Keys <= AfterSaves(c, files, records, sourceName, params).Keys
    decreases |records|
  {
    if records != [] {
      AfterSavesKeepsFiles(c, AfterSave(c, files, records[0], sourceName, params), records[1..], sourceName, params);
    }
  }

  class FileStorage {
    const config: Config
    var files: map<string, string>

    /** Every file lives in the storage directory. */
    ghost predicate Valid()
      reads this
    {
      forall p :: p in files ==> config.dirPath <= p
    }

    /** The storage directory is <projectRoot>/filestorage/. */
    constructor (projectRoot: string, unwritable: set<string>, jsonEncode: seq<(string, string)> -> string, existing: map<string, string>)
      requires forall p :: p in existing ==> projectRoot + DIRECTORY_SEPARATOR + "filestorage" + DIRECTORY_SEPARATOR <= p
      ensures Valid()
      ensures config == Config(projectRoot + DIRECTORY_SEPARATOR + "filestorage" + DIRECTORY_SEPARATOR, unwritable, jsonEncode)
      ensures files == existing
    {
      config := Config(projectRoot + DIRECTORY_SEPARATOR + "filestorage" + DIRECTORY_SEPARATOR, unwritable, jsonEncode);
      files := existing;
    }

    /** Appends the record's JSON to its file and answers whether that file
        exists afterwards. */
    method Save(input: Trademark, sourceName: string, params: map<string, string>) returns (saved: bool)
      requires Valid()
      requires input.id.Some?
      modifies this
      ensures Valid()
      ensures files == AfterSave(config, old(files), input.View(), sourceName, params)
      ensures saved == (TargetPath(config, sourceName, params, input.id.value) in files)
    {
      var name := sourceName;
      if "suffix" in params {
        name := name + "_" + params["suffix"];
      }
      var fileName := GenerateFileName(input, name);
      var filePath := config.dirPath + fileName;
      AppendToFile(filePath, input.ToJson(config.jsonEncode));
      saved := filePath in files;
    }

    /** The source name, "_" and the id (Trademark declares `id`), ".txt". */
    method GenerateFileName(input: Trademark, sourceName: string) returns (fileName: string)
      requires input.id.Some?
      ensures fileName == sourceName + "_" + input.id.value + FILE_EXTENSION
    {
      fileName := sourceName;
      if IsProperty("id") {
        fileName := fileName + "_" + input.id.value;
      }
      fileName := fileName + FILE_EXTENSION;
    }

    /** Appends content to the file at filePath, creating it when missing. */
    method AppendToFile(filePath: string, content: string)
      modifies this
      ensures files == if filePath in config.unwritable then old(files) else Appended(old(files), filePath, content)
    {
      if filePath !in config.unwritable {
        files := files[filePath := Content(files, filePath) + content];
      }
    }
  }
}
