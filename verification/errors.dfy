/** Why a run of the task stops. Each constructor is one `grunt.fail.warn` or thrown error. */
module Errors {

  datatype Error =
    | UndefinedPackage(name: string)   // a package marker names no registered package
    | PartialNotFound(path: string)    // a partial marker names no regular file
    | IndexAndJsBothSet                // checkConfiguration: 'index and js options are both set'
    | NoDest                           // checkConfiguration: 'no dest specified for output'
    | NoJsIncludes                     // checkConfiguration: 'no js includes output directory specified'
    | NoJsSource                       // checkConfiguration: 'no js source output directory specified'
    | NeitherIndexNorJs                // checkConfiguration: 'neither index nor js option is set'
    | InvalidMode                      // checkConfiguration: 'mode must be set to DEVELOPMENT or PRODUCTION'
    | MissingJsOptions                 // TypeError: `options.js.source` read while `options.js` is undefined
    | MissingOutputPrefix              // TypeError: `options.output_prefix.js` read while the prefix is absent
    | UnreadableFile(path: string)     // grunt.file.read of the index template failed
}
