// The constants of the dashboard scripts' configuration: request timeout and
// retry count, the day grid, and the user-facing messages.
module DashboardConfig {
  const ApiTimeout: nat := 10000
  const RetryCount: nat := 3

  const TotalSlots: nat := 144
  const SlotDuration: nat := 10
  const HoursPerDay: nat := 24
  const SlotsPerHour: nat := 6

  const SlotSavedSuffix: string := "개 슬롯이 저장되었습니다."
  const SlotDeletedSuffix: string := "개의 기록된 슬롯이 삭제되었습니다."
  const TagCreated: string := "태그가 성공적으로 생성되었습니다."
  const TagUpdated: string := "태그가 성공적으로 수정되었습니다."
  const TagDeleted: string := "태그가 성공적으로 삭제되었습니다."

  const NoSelection: string := "슬롯과 태그를 선택해주세요."
  const NoSlotsToDelete: string := "삭제할 슬롯을 선택해주세요."
  const NoFilledSlots: string := "삭제할 수 있는 기록된 슬롯이 없습니다."
  const NetworkError: string := "네트워크 연결을 확인해주세요."
  const PermissionDenied: string := "권한이 없습니다. 페이지를 새로고침해주세요."
  const NotFound: string := "요청한 리소스를 찾을 수 없습니다."
  const ServerError: string := "서버 오류가 발생했습니다. 잠시 후 다시 시도해주세요."
  const LoadFailed: string := "데이터를 불러오는 중 오류가 발생했습니다"
  const SaveFailed: string := "저장 중 오류가 발생했습니다"
  const DeleteFailed: string := "삭제 중 오류가 발생했습니다"

  const ConfirmDeleteSlotsSuffix: string := "개의 기록된 슬롯을 삭제하시겠습니까?"

  const EscapeKey: string := "Escape"
}
