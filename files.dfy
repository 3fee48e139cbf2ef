/** The disk, reduced to what the program reads and writes: regular files
    by path, with their text. Directories exist implicitly. */
module Files {

  class FileSystem {
    var files: map<string, string>

    constructor (files: map<string, string>)
      ensures this.files == files
    {
      this.files := files;
    }

    /** `Path::exists` of a file. */
    predicate Exists(path: string)
      reads this
    {
      path in files
    }

    /** `fs::write`: create or replace a file. */
    method Write(path: string, content: string)
      modifies this
      ensures files == old(files)[path := content]
    {
      files := files[path := content];
    }

    /** `fs::copy`: the target gets the source's content. */
    method Copy(source: string, target: string)
      requires source in files
      modifies this
      ensures files == old(files)[target := old(files)[source]]
    {
      files := files[target := files[source]];
    }
  }
}
