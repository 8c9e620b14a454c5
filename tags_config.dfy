// The constants of the tag page scripts' configuration: the default colour,
// the name length limit and the user-facing messages.
module TagsConfig {
  const ApiTimeout: nat := 10000
  const RetryCount: nat := 3

  const DefaultTagColor: string := "#007bff"
  const MaxTagNameLength: nat := 50

  const TagCreated: string := "태그가 성공적으로 생성되었습니다."
  const TagUpdated: string := "태그가 성공적으로 수정되었습니다."
  const TagDeleted: string := "태그가 성공적으로 삭제되었습니다."

  const LoadFailed: string := "태그를 불러오는 중 오류가 발생했습니다"
  const SaveFailed: string := "태그 저장 중 오류가 발생했습니다"
  const DeleteFailed: string := "태그 삭제 중 오류가 발생했습니다"
  const ValidationFailed: string := "입력값을 확인해주세요"
  const NetworkError: string := "네트워크 연결을 확인해주세요"
  const PermissionDenied: string := "접근 권한이 없습니다"
  const NotFound: string := "요청한 태그를 찾을 수 없습니다"
  const ServerError: string := "서버 내부 오류가 발생했습니다"

  const ConfirmDeleteTag: string := "태그를 삭제하시겠습니까?\n\n※ 사용 중인 태그는 삭제할 수 없습니다."
}
