/** The failure codes the modelled paths raise; message wording is not modelled. */
module Failures {

  datatype Code =
    | InvalidTransformConfig
    | UnknownTransformField
    | TransformNameCollision
    | InvalidSchemaConfig
    | UnsupportedOverrideType
    | UnknownOverrideField
    | UnknownMergeKeyField
    | SchemaOverrideConflict
    | SchemaDrift
    | InvalidPinnedSchema
    | PinnedSchemaReadFailed
    | SchemaCoercionFailed
    | RecordBatchCreationFailed
    | MalformedCsv
    | MalformedJsonl
    | SourceReadFailed
    | SourceChangedDuringLoad
    | RejectThresholdExceeded
    | PinnedSchemaWriteFailed
    | DestinationWriteFailed
    | IncompatibleDestinationTable
    | DuplicateMergeKeys
}
