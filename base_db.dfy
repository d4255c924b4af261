/** The source-database queries of the shader analyzer. The three inputs
    (file text per file, the custom import table, the active shader defines)
    form one explicit record; every query is a function of that record and of
    its external collaborators: the shader preprocessor, the syntax parser and
    the line-index builder, none of which is modelled beyond its signature. */
module BaseDb {
  import opened Types
  import opened ShaderProcessor
  import opened ImportSplice

  /** The database inputs. */
  datatype Inputs = Inputs(
    fileText: map<FileId, Text>,
    customImports: map<string, Text>,
    shaderDefs: set<string>)

  /** The collaborators the queries call: the preprocessor (source and
      defines to processed text and callbacks), the parser and `LineIndex::new`. */
  datatype Env<Tree, Index> = Env(
    process: (Text, set<string>) -> Processed,
    parse: Text -> Tree,
    newLineIndex: Text -> Index)

  /** `line_index`: delegates to the line-index builder on the file text. */
  function LineIndex<Tree, Index>(db: Inputs, env: Env<Tree, Index>, fileId: FileId): Index
    requires fileId in db.fileText
  {
    env.newLineIndex(db.fileText[fileId])
  }

  /** The line index reads the file's text and nothing else. */
  lemma LineIndexReadsTextOnly<Tree, Index>(db: Inputs, other: Inputs, env: Env<Tree, Index>, fileId: FileId)
    requires fileId in db.fileText && fileId in other.fileText
    requires db.fileText[fileId] == other.fileText[fileId]
    ensures LineIndex(db, env, fileId) == LineIndex(other, env, fileId)
  {
  }

  /** `parse_no_preprocessor`: the raw file text, parsed. */
  function ParseNoPreprocessor<Tree, Index>(db: Inputs, env: Env<Tree, Index>, fileId: FileId): Tree
    requires fileId in db.fileText
  {
    env.parse(db.fileText[fileId])
  }

  /** Parsing without the preprocessor reads neither the defines nor the
      import table. */
  lemma ParseNoPreprocessorReadsTextOnly<Tree, Index>(db: Inputs, other: Inputs, env: Env<Tree, Index>, fileId: FileId)
    requires fileId in db.fileText && fileId in other.fileText
    requires db.fileText[fileId] == other.fileText[fileId]
    ensures ParseNoPreprocessor(db, env, fileId) == ParseNoPreprocessor(other, env, fileId)
  {
  }

  /** `parse_import_no_preprocessor`: fails exactly when the key has no
      entry; otherwise parses the raw entry. */
  function ParseImportNoPreprocessor<Tree, Index>(db: Inputs, env: Env<Tree, Index>, key: string): (r: Result<Tree>)
    ensures r.Err? <==> key !in db.customImports
    ensures r.Ok? ==> r.value == env.parse(db.customImports[key])
  {
    if key in db.customImports then Ok(env.parse(db.customImports[key])) else Err
  }

  /** `parse_import`: fails exactly when the key has no entry; otherwise
      parses the entry after preprocessing it with the current defines. The
      callbacks are discarded, so imports inside the entry are not expanded. */
  function ParseImport<Tree, Index>(db: Inputs, env: Env<Tree, Index>, key: string): (r: Result<Tree>)
    ensures r.Err? <==> key !in db.customImports
    ensures r.Ok? ==> r.value == env.parse(env.process(db.customImports[key], db.shaderDefs).text)
  {
    if key in db.customImports then
      var processedSource := env.process(db.customImports[key], db.shaderDefs).text;
      Ok(env.parse(processedSource))
    else Err
  }

  /** When preprocessing leaves an entry unchanged, the two import queries agree. */
  lemma ImportQueriesAgree<Tree, Index>(db: Inputs, env: Env<Tree, Index>, key: string)
    requires key in db.customImports ==>
      env.process(db.customImports[key], db.shaderDefs).text == db.customImports[key]
    ensures ParseImport(db, env, key) == ParseImportNoPreprocessor(db, env, key)
  {
  }

  /** The preprocessor's output for a file under the current defines. */
  function ProcessFile<Tree, Index>(db: Inputs, env: Env<Tree, Index>, fileId: FileId): Processed
    requires fileId in db.fileText
  {
    env.process(db.fileText[fileId], db.shaderDefs)
  }

  /** `parse_with_unconfigured` does not panic: the file has text, every
      callback range satisfies `TextRange`'s `start <= end`, and the
      `split_at` calls of the splice loop stay in bounds. */
  predicate QueryDefined<Tree, Index>(db: Inputs, env: Env<Tree, Index>, fileId: FileId)
  {
    && fileId in db.fileText
    && RangesValid(ProcessFile(db, env, fileId).events)
    && SpliceDefined(ProcessFile(db, env, fileId).text, Occurrences(ProcessFile(db, env, fileId).events), db.customImports)
  }

  /** What `parse_with_unconfigured` returns: the tree of the spliced
      processed text, and the unconfigured list. */
  function ParseWithUnconfigured<Tree, Index>(db: Inputs, env: Env<Tree, Index>, fileId: FileId): (Tree, seq<UnconfiguredCode>)
    requires QueryDefined(db, env, fileId)
  {
    var processed := ProcessFile(db, env, fileId);
    (env.parse(SpliceAsWritten(processed.text, Occurrences(processed.events), db.customImports)),
     Unconfigured(processed.events))
  }

  /** `parse_with_unconfigured_query`: run the preprocessor with the two
      collecting callbacks, splice the import-table text, parse. */
  method ParseWithUnconfiguredQuery<Tree, Index>(db: Inputs, env: Env<Tree, Index>, fileId: FileId)
    returns (parse: Tree, unconfigured: seq<UnconfiguredCode>)
    requires QueryDefined(db, env, fileId)
    ensures (parse, unconfigured) == ParseWithUnconfigured(db, env, fileId)
  {
    var shaderDefs := db.shaderDefs;
    var source := db.fileText[fileId];
    var processed := env.process(source, shaderDefs);
    var fileToImport;
    unconfigured, fileToImport := CollectCallbacks(processed.events);
    var processedSource := SpliceImports(processed.text, fileToImport, db.customImports);
    parse := env.parse(processedSource);
  }

  /** `parse`: the tree component of `parse_with_unconfigured`, which is the
      parse of the processed text after import splicing. */
  function Parse<Tree, Index>(db: Inputs, env: Env<Tree, Index>, fileId: FileId): (r: Tree)
    requires QueryDefined(db, env, fileId)
    ensures var processed := ProcessFile(db, env, fileId);
      r == env.parse(SpliceAsWritten(processed.text, Occurrences(processed.events), db.customImports))
  {
    ParseWithUnconfigured(db, env, fileId).0
  }

  /** The unconfigured list is the preprocessor's unconfigured-code callbacks
      with range and define copied, and the import table plays no part in it. */
  lemma UnconfiguredFromCallbacks<Tree, Index>(db: Inputs, env: Env<Tree, Index>, fileId: FileId, imports: map<string, Text>)
    requires QueryDefined(db, env, fileId)
    requires QueryDefined(db.(customImports := imports), env, fileId)
    ensures forall u :: u in ParseWithUnconfigured(db, env, fileId).1 <==>
      Elided(u.range, u.def) in ProcessFile(db, env, fileId).events
    ensures ParseWithUnconfigured(db, env, fileId).1 == ParseWithUnconfigured(db.(customImports := imports), env, fileId).1
  {
    UnconfiguredExactly(ProcessFile(db, env, fileId).events);
  }

  /** No import occurrence names a key of the table: the processed text is
      parsed unchanged. */
  lemma ParseWithoutMatchedImports<Tree, Index>(db: Inputs, env: Env<Tree, Index>, fileId: FileId)
    requires fileId in db.fileText
    requires RangesValid(ProcessFile(db, env, fileId).events)
    requires forall e :: e in ProcessFile(db, env, fileId).events && e.ImportAt? ==> e.identifier !in db.customImports
    ensures QueryDefined(db, env, fileId)
    ensures Parse(db, env, fileId) == env.parse(ProcessFile(db, env, fileId).text)
  {
    var processed := ProcessFile(db, env, fileId);
    var occs := Occurrences(processed.events);
    OccurrencesExactly(processed.events);
    forall j | 0 <= j < |occs|
      ensures occs[j].identifier !in db.customImports
    {
      assert occs[j] in occs;
      assert ImportAt(occs[j].range, occs[j].identifier) in processed.events;
    }
    SpliceNoMatch(processed.text, occs, db.customImports);
  }

  /** Entries of the import table that no import directive of the file names
      never affect its parse. */
  lemma ParseIgnoresUnnamedImports<Tree, Index>(db: Inputs, env: Env<Tree, Index>, fileId: FileId, imports: map<string, Text>)
    requires QueryDefined(db, env, fileId)
    requires forall e :: e in ProcessFile(db, env, fileId).events && e.ImportAt? ==>
      (e.identifier in db.customImports <==> e.identifier in imports)
    requires forall e :: e in ProcessFile(db, env, fileId).events && e.ImportAt? && e.identifier in imports ==>
      e.identifier in db.customImports && db.customImports[e.identifier] == imports[e.identifier]
    ensures QueryDefined(db.(customImports := imports), env, fileId)
    ensures Parse(db, env, fileId) == Parse(db.(customImports := imports), env, fileId)
  {
    var processed := ProcessFile(db, env, fileId);
    var occs := Occurrences(processed.events);
    OccurrencesExactly(processed.events);
    forall j | 0 <= j < |occs|
      ensures occs[j].identifier in db.customImports <==> occs[j].identifier in imports
      ensures occs[j].identifier in db.customImports ==> db.customImports[occs[j].identifier] == imports[occs[j].identifier]
    {
      assert occs[j] in occs;
      assert ImportAt(occs[j].range, occs[j].identifier) in processed.events;
    }
    UnnamedEntriesIrrelevant(processed.text, occs, db.customImports, imports);
  }
}
