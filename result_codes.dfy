/** Status codes returned by the validation harness and by the collaborators it calls
    (the ModusToolbox `cy_rslt_t` / `mtb_ml_result_t` values). `CY_RSLT_SUCCESS` and
    `MTB_ML_RESULT_SUCCESS` are the same value and are both modelled by `Success`. */
module ResultCodes {

  datatype Status =
    | Success            // CY_RSLT_SUCCESS == MTB_ML_RESULT_SUCCESS
    | MismatchDataType   // MTB_ML_RESULT_MISMATCH_DATA_TYPE
    | AllocErr           // MTB_ML_RESULT_ALLOC_ERR
    | InferenceError     // MTB_ML_RESULT_INFERENCE_ERROR
    | BadModel           // MTB_ML_RESULT_BAD_MODEL
    | Other(code: int)   // any other code a collaborator may report
}
