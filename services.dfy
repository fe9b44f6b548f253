/**
 * The outside world of the photo-processing stages. Cloud Storage,
 * Pub/Sub and sharp are not modelled as code: each storage, Pub/Sub and
 * resize call is recorded in `Cloud.calls`, and whether it succeeds is a
 * parameter of the stage that makes it. `Disk` is the local temporary
 * directory.
 */
module Services {
  import PipelineContext

  /** The files that exist in the local temporary directory. */
  class Disk {
    var files: set<string>

    constructor (files: set<string>)
      ensures this.files == files
    {
      this.files := files;
    }

    /** `fs.unlinkSync(path)`: the file is gone afterwards; it throws (`ok == false`) when there was none. */
    method Unlink(path: string) returns (ok: bool)
      modifies this
      ensures ok <==> path in old(files)
      ensures files == old(files) - {path}
    {
      ok := path in files;
      files := files - {path};
    }

    /** A download or `toFile` wrote `path`. */
    method Write(path: string)
      modifies this
      ensures files == old(files) + {path}
    {
      files := files + {path};
    }
  }

  /** A call made to a cloud service, or to sharp to resize an image into a file. */
  datatype Call =
    | Download(bucket: string, path: string, destination: string)
    | Upload(file: string, bucket: string, path: string)
    | Publish(topic: string, payload: PipelineContext.ContextValue)
    | Resize(input: string, width: int, output: string)

  /** Every call made to Cloud Storage, Pub/Sub and sharp's `resize(…).toFile(…)`, in order, whether it succeeded or not. */
  class Cloud {
    var calls: seq<Call>

    constructor ()
      ensures calls == []
    {
      calls := [];
    }

    method Record(call: Call)
      modifies this
      ensures calls == old(calls) + [call]
    {
      calls := calls + [call];
    }
  }
}
