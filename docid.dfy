/**
 * The document id a mapper task works under: the stem of the input file's
 * name, read from the variables the map/reduce framework sets for the task.
 * Both mappers derive it the same way.
 */
module DocumentIdentity {
  import opened Wrappers

  /** The variables consulted, in order of preference. */
  const InputFileVars: seq<string> := ["mapreduce_map_input_file", "map_input_file"]

  /** The id used when neither variable is set. */
  const UnknownDoc: string := "unknown_doc"

  /** os.path.basename: the text after the last '/'. */
  function Basename(path: string): (name: string)
    ensures '/' !in name
    ensures |name| <= |path| && name == path[|path| - |name|..]
    ensures |name| < |path| ==> path[|path| - |name| - 1] == '/'
  {
    if path == [] || path[|path| - 1] == '/' then []
    else
      var name := Basename(path[..|path| - 1]);
      assert path[..|path| - 1][|path| - 1 - |name|..] + [path[|path| - 1]] == path[|path| - |name| - 1..];
      name + [path[|path| - 1]]
  }

  /** name.split('.')[0]: the text before the first '.'. */
  function Stem(name: string): (stem: string)
    ensures '.' !in stem
    ensures |stem| <= |name| && stem == name[..|stem|]
    ensures |stem| < |name| ==> name[|stem|] == '.'
  {
    if name == [] || name[0] == '.' then [] else [name[0]] + Stem(name[1..])
  }

  /** The value of the first of vars that env defines. */
  function FirstPresent(vars: seq<string>, env: map<string, string>): Option<string> {
    if vars == [] then None
    else if vars[0] in env then Some(env[vars[0]])
    else FirstPresent(vars[1..], env)
  }

  /** _get_document_id: the stem of the basename of the first input-file variable set. */
  function DocumentId(env: map<string, string>): (id: string)
    ensures '/' !in id && '.' !in id
    ensures InputFileVars[0] in env ==> id == Stem(Basename(env[InputFileVars[0]]))
    ensures InputFileVars[0] !in env && InputFileVars[1] in env ==>
              id == Stem(Basename(env[InputFileVars[1]]))
    ensures InputFileVars[0] !in env && InputFileVars[1] !in env ==> id == UnknownDoc
  {
    var rest := InputFileVars[1..];
    assert rest[0] == InputFileVars[1] && rest[1..] == [];
    assert FirstPresent(rest[1..], env) == None;
    assert InputFileVars[0] !in env ==> FirstPresent(InputFileVars, env) == FirstPresent(rest, env);
    match FirstPresent(InputFileVars, env)
    case Some(path) => Stem(Basename(path))
    case None => UnknownDoc
  }

  /** The basename of dir/file is file when file holds no '/'. */
  lemma {:induction false} BasenameOfPath(dir: string, file: string)
    requires '/' !in file
    ensures Basename(dir + "/" + file) == file
  {
    var path := dir + "/" + file;
    if file != [] {
      var init := file[..|file| - 1];
      assert path[..|path| - 1] == dir + "/" + init;
      BasenameOfPath(dir, init);
      assert file == init + [file[|file| - 1]];
    }
  }

  /** The stem of stem.ext is stem when stem holds no '.'. */
  lemma {:induction false} StemOfName(stem: string, ext: string)
    requires '.' !in stem
    ensures Stem(stem + "." + ext) == stem
  {
    if stem != [] {
      assert (stem + "." + ext)[1..] == stem[1..] + "." + ext;
      StemOfName(stem[1..], ext);
    }
  }

  /** A task reading dir/stem.ext works under the id stem. */
  lemma DocumentIdOfInputFile(env: map<string, string>, dir: string, stem: string, ext: string)
    requires '/' !in stem + "." + ext && '.' !in stem
    requires InputFileVars[0] in env && env[InputFileVars[0]] == dir + "/" + stem + "." + ext
    ensures DocumentId(env) == stem
  {
    assert dir + "/" + stem + "." + ext == dir + "/" + (stem + "." + ext);
    BasenameOfPath(dir, stem + "." + ext);
    StemOfName(stem, ext);
  }

  /** A dot-file has an empty stem, so its id is the empty string. */
  lemma HiddenFileHasEmptyId(dir: string)
    ensures DocumentId(map["map_input_file" := dir + "/.hidden"]) == ""
  {
    BasenameOfPath(dir, ".hidden");
    assert dir + "/.hidden" == dir + "/" + ".hidden";
  }
}
